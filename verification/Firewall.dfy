/** The egress firewall over an abstract iptables: a chain of rules, its jumps from OUTPUT, and commands
    that may fail.  Name resolution and address matching belong to the environment. */
module Firewall {
  import opened Manifest
  import opened Wrappers

  datatype Protocol = Tcp | Udp | Other

  datatype Target = Accept | Drop

  /** A rule's tests; an absent test always holds. */
  datatype Rule = Rule(loopback: bool, dest: Option<string>, protocol: Option<Protocol>, port: Option<string>, target: Target)

  datatype Packet = Packet(loopback: bool, address: string, protocol: Protocol, port: nat)

  /** `splitHostPort`, `resolveHost`, and how iptables reads addresses and ports. */
  datatype Env = Env(
    split: string -> (string, string),
    resolve: string -> seq<string>,
    addressMatches: (string, string) -> bool,
    portMatches: (string, nat) -> bool)

  // ---------------------------------------------------------------- verdicts

  predicate Matches(env: Env, r: Rule, p: Packet) {
    && (r.loopback ==> p.loopback)
    && (r.dest.Some? ==> env.addressMatches(r.dest.value, p.address))
    && (r.protocol.Some? ==> r.protocol.value == p.protocol)
    && (r.port.Some? ==> env.portMatches(r.port.value, p.port))
  }

  datatype Verdict = Decided(target: Target) | Returned

  /** The first rule that matches decides. */
  function VerdictOf(env: Env, chain: seq<Rule>, p: Packet): Verdict {
    if chain == [] then Returned
    else if Matches(env, chain[0], p) then Decided(chain[0].target)
    else VerdictOf(env, chain[1..], p)
  }

  const DROP_ALL := Rule(false, None, None, None, Drop)

  predicate AllAccept(rules: seq<Rule>) {
    forall i :: 0 <= i < |rules| ==> rules[i].target.Accept?
  }

  predicate Accepts(env: Env, rules: seq<Rule>, p: Packet) {
    exists i :: 0 <= i < |rules| && Matches(env, rules[i], p)
  }

  /** With accepting rules and a final drop, the verdict is accept exactly when some rule matches. */
  lemma {:induction false} VerdictIff(env: Env, rules: seq<Rule>, p: Packet)
    requires AllAccept(rules)
    ensures VerdictOf(env, rules + [DROP_ALL], p) == Decided(if Accepts(env, rules, p) then Accept else Drop)
  {
    if rules == [] {
      assert Matches(env, DROP_ALL, p);
    } else {
      assert (rules + [DROP_ALL])[1..] == rules[1..] + [DROP_ALL];
      VerdictIff(env, rules[1..], p);
      assert rules == [rules[0]] + rules[1..];
      assert Accepts(env, rules, p) <==> Matches(env, rules[0], p) || Accepts(env, rules[1..], p);
    }
  }

  // ---------------------------------------------------------------- the rules of an entry

  const LOOPBACK := Rule(true, None, None, None, Accept)
  const DNS_UDP := Rule(false, None, Some(Udp), Some("53"), Accept)
  const DNS_TCP := Rule(false, None, Some(Tcp), Some("53"), Accept)

  function DestRule(dest: string, port: string): Rule {
    Rule(false, Some(dest), Some(Tcp), if port == "" then None else Some(port), Accept)
  }

  function AddressRules(ips: seq<string>, port: string): (rules: seq<Rule>)
    ensures |rules| == |ips| && forall i :: 0 <= i < |ips| ==> rules[i] == DestRule(ips[i] + "/32", port)
  {
    seq(|ips|, i requires 0 <= i < |ips| => DestRule(ips[i] + "/32", port))
  }

  function EntryRules(env: Env, e: NetworkEntry): seq<Rule> {
    var (host, port) := env.split(e.pattern);
    if host == "" then []
    else if env.resolve(host) == [] then [DestRule(host, port)]
    else AddressRules(env.resolve(host), port)
  }

  /** What the tunnel is exempted with; the port is always given. */
  function TunnelRules(env: Env, fw: Endpoint): seq<Rule> {
    if fw.host == "" then [] else AddressRules(env.resolve(fw.host), Text.Itoa(fw.port))
  }

  datatype Endpoint = Endpoint(host: string, port: int)

  function BaseRules(env: Env, fw: Endpoint): seq<Rule> {
    [LOOPBACK] + TunnelRules(env, fw) + [DNS_UDP, DNS_TCP]
  }

  /** The chain of an endpoint and its entries, with the final drop. */
  function FullChain(env: Env, fw: Endpoint, entries: seq<NetworkEntry>): seq<Rule> {
    BaseRules(env, fw) + AllEntryRules(env, entries) + [DROP_ALL]
  }

  function AllEntryRules(env: Env, entries: seq<NetworkEntry>): seq<Rule> {
    if entries == [] then [] else AllEntryRules(env, entries[..|entries| - 1]) + EntryRules(env, entries[|entries| - 1])
  }

  lemma EntryRulesStep(env: Env, entries: seq<NetworkEntry>, i: nat)
    requires i < |entries|
    ensures AllEntryRules(env, entries[..i + 1]) == AllEntryRules(env, entries[..i]) + EntryRules(env, entries[i])
  {
    assert entries[..i + 1][..i] == entries[..i];
  }

  // ---------------------------------------------------------------- what should be let out

  predicate IsDns(env: Env, p: Packet) {
    p.protocol != Other && env.portMatches("53", p.port)
  }

  /** The packet goes to one of the addresses of a host, or to the host's own spelling when it does not
      resolve, on the given port. */
  predicate GoesTo(env: Env, host: string, port: string, p: Packet) {
    && p.protocol == Tcp && (port != "" ==> env.portMatches(port, p.port))
    && if env.resolve(host) == [] then env.addressMatches(host, p.address)
       else exists i :: 0 <= i < |env.resolve(host)| && env.addressMatches(env.resolve(host)[i] + "/32", p.address)
  }

  predicate EntryPermits(env: Env, e: NetworkEntry, p: Packet) {
    var (host, port) := env.split(e.pattern);
    host != "" && GoesTo(env, host, port, p)
  }

  predicate TunnelPermits(env: Env, fw: Endpoint, p: Packet) {
    fw.host != "" && env.resolve(fw.host) != [] && GoesTo(env, fw.host, Text.Itoa(fw.port), p)
  }

  predicate Permitted(env: Env, fw: Endpoint, entries: seq<NetworkEntry>, p: Packet) {
    || p.loopback || IsDns(env, p) || TunnelPermits(env, fw, p)
    || exists i :: 0 <= i < |entries| && EntryPermits(env, entries[i], p)
  }

  lemma AcceptsAppend(env: Env, a: seq<Rule>, b: seq<Rule>, p: Packet)
    ensures Accepts(env, a + b, p) <==> Accepts(env, a, p) || Accepts(env, b, p)
  {
    if Accepts(env, a, p) {
      var i :| 0 <= i < |a| && Matches(env, a[i], p);
      assert (a + b)[i] == a[i];
    }
    if Accepts(env, b, p) {
      var i :| 0 <= i < |b| && Matches(env, b[i], p);
      assert (a + b)[|a| + i] == b[i];
    }
  }

  lemma AddressRulesIff(env: Env, host: string, port: string, p: Packet)
    requires env.resolve(host) != []
    ensures Accepts(env, AddressRules(env.resolve(host), port), p) <==> GoesTo(env, host, port, p)
  {
    var ips, rules := env.resolve(host), AddressRules(env.resolve(host), port);
    if Accepts(env, rules, p) {
      var i :| 0 <= i < |rules| && Matches(env, rules[i], p);
      assert env.addressMatches(ips[i] + "/32", p.address);
    }
    if GoesTo(env, host, port, p) {
      var i :| 0 <= i < |ips| && env.addressMatches(ips[i] + "/32", p.address);
      assert Matches(env, rules[i], p);
    }
  }

  lemma EntryRulesIff(env: Env, e: NetworkEntry, p: Packet)
    ensures Accepts(env, EntryRules(env, e), p) <==> EntryPermits(env, e, p)
  {
    var (host, port) := env.split(e.pattern);
    if host != "" && env.resolve(host) != [] {
      AddressRulesIff(env, host, port, p);
    } else if host != "" {
      assert EntryRules(env, e)[0] == DestRule(host, port);
    }
  }

  lemma {:induction false} AllEntryRulesIff(env: Env, entries: seq<NetworkEntry>, p: Packet)
    ensures Accepts(env, AllEntryRules(env, entries), p) <==> exists i :: 0 <= i < |entries| && EntryPermits(env, entries[i], p)
  {
    if entries == [] {
    } else {
      var n := |entries| - 1;
      AllEntryRulesIff(env, entries[..n], p);
      EntryRulesIff(env, entries[n], p);
      AcceptsAppend(env, AllEntryRules(env, entries[..n]), EntryRules(env, entries[n]), p);
    }
  }

  lemma BaseRulesIff(env: Env, fw: Endpoint, p: Packet)
    ensures Accepts(env, BaseRules(env, fw), p) <==> p.loopback || IsDns(env, p) || TunnelPermits(env, fw, p)
  {
    var dns := [DNS_UDP, DNS_TCP];
    AcceptsAppend(env, [LOOPBACK] + TunnelRules(env, fw), dns, p);
    AcceptsAppend(env, [LOOPBACK], TunnelRules(env, fw), p);
    assert [LOOPBACK][0] == LOOPBACK;
    assert Accepts(env, dns, p) <==> Matches(env, dns[0], p) || Matches(env, dns[1], p);
    if fw.host != "" && env.resolve(fw.host) != [] {
      ItoaIsNotEmpty(fw.port);
      AddressRulesIff(env, fw.host, Text.Itoa(fw.port), p);
    }
  }

  lemma ItoaIsNotEmpty(n: int)
    ensures Text.Itoa(n) != ""
  {
  }

  /** The full chain lets out exactly what is permitted and drops the rest. */
  lemma ChainIsPolicy(env: Env, fw: Endpoint, entries: seq<NetworkEntry>, p: Packet)
    ensures VerdictOf(env, FullChain(env, fw, entries), p)
         == Decided(if Permitted(env, fw, entries, p) then Accept else Drop)
  {
    var base, rest := BaseRules(env, fw), AllEntryRules(env, entries);
    EntryRulesAccept(env, entries);
    VerdictIff(env, base + rest, p);
    AcceptsAppend(env, base, rest, p);
    BaseRulesIff(env, fw, p);
    AllEntryRulesIff(env, entries, p);
  }

  lemma {:induction false} EntryRulesAccept(env: Env, entries: seq<NetworkEntry>)
    ensures AllAccept(AllEntryRules(env, entries))
  {
    if entries == [] {
    } else {
      EntryRulesAccept(env, entries[..|entries| - 1]);
    }
  }

  /** Whatever commands failed for the entries, a guarding chain lets out nothing that is not permitted, keeps
      loopback and DNS open, and decides every packet. */
  lemma GuardingChainIsSafe(env: Env, fw: Endpoint, entries: seq<NetworkEntry>, rules: seq<Rule>, p: Packet)
    requires OnlyFrom(env, fw, entries, rules)
    ensures VerdictOf(env, rules + [DROP_ALL], p) == Decided(Accept) ==> Permitted(env, fw, entries, p)
    ensures p.loopback || IsDns(env, p) ==> VerdictOf(env, rules + [DROP_ALL], p) == Decided(Accept)
    ensures VerdictOf(env, rules + [DROP_ALL], p) != Returned
  {
    VerdictIff(env, rules, p);
    BaseRulesIff(env, fw, p);
    AllEntryRulesIff(env, entries, p);
    if Accepts(env, rules, p) {
      var i :| 0 <= i < |rules| && Matches(env, rules[i], p);
      assert rules[i] in rules;
    }
    if p.loopback { assert Matches(env, LOOPBACK, p); }
    if IsDns(env, p) { assert Matches(env, DNS_UDP, p) || Matches(env, DNS_TCP, p); }
  }

  // ---------------------------------------------------------------- iptables

  /** The chain (absent before it is created), how many rules of OUTPUT jump to it, and which commands
      fail. */
  class IpTables {
    var chain: Option<seq<Rule>>
    var jumps: nat
    var calls: nat
    const fails: nat -> bool

    constructor (fails: nat -> bool, chain: Option<seq<Rule>>, jumps: nat)
      ensures this.fails == fails && this.chain == chain && this.jumps == jumps
    {
      this.fails, this.chain, this.jumps, this.calls := fails, chain, jumps, 0;
    }

    ghost predicate Reliable() { forall n :: !fails(n) }

    /** `-N`: refused when the chain exists. */
    method NewChain() returns (ok: bool, present: bool)
      modifies this
      ensures jumps == old(jumps) && (Reliable() ==> ok == old(chain).None? && present == old(chain).Some?)
      ensures chain == if ok then Some([]) else old(chain)
      ensures present ==> !ok && chain.Some?
    {
      calls := calls + 1;
      if fails(calls) {
        return false, false;
      }
      if chain.Some? {
        return false, true;
      }
      chain := Some([]);
      return true, false;
    }

    method Flush() returns (ok: bool)
      modifies this
      ensures jumps == old(jumps) && (Reliable() && old(chain).Some? ==> ok)
      ensures if ok then old(chain).Some? && chain == Some([]) else chain == old(chain)
    {
      calls := calls + 1;
      if fails(calls) || chain.None? {
        return false;
      }
      chain := Some([]);
      ok := true;
    }

    method Append(r: Rule) returns (ok: bool)
      modifies this
      ensures jumps == old(jumps) && (Reliable() && old(chain).Some? ==> ok)
      ensures if ok then old(chain).Some? && chain == Some(old(chain).value + [r]) else chain == old(chain)
    {
      calls := calls + 1;
      if fails(calls) || chain.None? {
        return false;
      }
      chain := Some(chain.value + [r]);
      ok := true;
    }

    /** `-C`, then `-A` if the jump was not found. */
    method EnsureJump() returns (ok: bool)
      modifies this
      ensures chain == old(chain) && (Reliable() && chain.Some? ==> ok)
      ensures ok && old(jumps) <= 1 && Reliable() ==> jumps == 1
      ensures old(jumps) <= jumps <= old(jumps) + 1 && (ok ==> 0 < jumps)
    {
      calls := calls + 1;
      if !fails(calls) && jumps > 0 {
        return true;
      }
      calls := calls + 1;
      if fails(calls) || chain.None? {
        return false;
      }
      jumps := jumps + 1;
      ok := true;
    }

    method RemoveJump()
      modifies this
      ensures chain == old(chain)
      ensures Reliable() ==> jumps == if old(jumps) == 0 then 0 else old(jumps) - 1
      ensures jumps == old(jumps) || jumps == old(jumps) - 1
    {
      calls := calls + 1;
      if !fails(calls) && jumps > 0 {
        jumps := jumps - 1;
      }
    }

    /** `-X`: refused while the chain has rules or is referenced. */
    method DeleteChain()
      modifies this
      ensures jumps == old(jumps)
      ensures Reliable() && jumps == 0 && (old(chain).Some? ==> old(chain).value == []) ==> chain.None?
      ensures chain == old(chain) || (chain.None? && jumps == 0)
    {
      calls := calls + 1;
      if !fails(calls) && jumps == 0 && chain == Some([]) {
        chain := None;
      }
    }
  }

  /** `after` continues `before` with rules taken from `pool`. */
  ghost predicate Grew(before: Option<seq<Rule>>, after: Option<seq<Rule>>, pool: seq<Rule>) {
    && before.Some? && after.Some? && before.value <= after.value
    && forall i :: |before.value| <= i < |after.value| ==> after.value[i] in pool
  }

  lemma GrewTwice(a: Option<seq<Rule>>, b: Option<seq<Rule>>, c: Option<seq<Rule>>, p: seq<Rule>, q: seq<Rule>, all: seq<Rule>)
    requires Grew(a, b, p) && Grew(b, c, q) && (forall r :: r in p ==> r in all) && (forall r :: r in q ==> r in all)
    ensures Grew(a, c, all)
  {
    forall i | |a.value| <= i < |c.value| ensures c.value[i] in all {
      if i < |b.value| { assert c.value[i] == b.value[i]; }
    }
  }

  class Egress {
    const env: Env
    const endpoint: Endpoint
    const tables: IpTables

    constructor (env: Env, endpoint: Endpoint, tables: IpTables)
      ensures this.env == env && this.endpoint == endpoint && this.tables == tables
    {
      this.env, this.endpoint, this.tables := env, endpoint, tables;
    }

    /** The loop of `addEntryRules`: the first failing command ends it. */
    method AddEntryRules(e: NetworkEntry)
      requires tables.chain.Some?
      modifies tables
      ensures tables.jumps == old(tables.jumps) && Grew(old(tables.chain), tables.chain, EntryRules(env, e))
      ensures tables.Reliable() ==> tables.chain.Some? && tables.chain.value == old(tables.chain).value + EntryRules(env, e)
    {
      ghost var rules, start := EntryRules(env, e), tables.chain.value;
      var (host, port) := env.split(e.pattern);
      if host == "" {
        return;
      }
      var ips := env.resolve(host);
      if |ips| == 0 {
        var _ := tables.Append(DestRule(host, port));
        return;
      }
      for i := 0 to |ips|
        invariant tables.jumps == old(tables.jumps) && tables.chain.Some? && tables.chain.value == start + rules[..i]
      {
        var ok := tables.Append(DestRule(ips[i] + "/32", port));
        if !ok {
          return;
        }
        assert rules[..i + 1] == rules[..i] + [rules[i]];
      }
      assert rules[..|rules|] == rules;
    }

    method AddTunnelRules()
      requires tables.chain.Some?
      modifies tables
      ensures tables.jumps == old(tables.jumps) && Grew(old(tables.chain), tables.chain, TunnelRules(env, endpoint))
      ensures tables.Reliable() ==> tables.chain.Some? && tables.chain.value == old(tables.chain).value + TunnelRules(env, endpoint)
    {
      if endpoint.host == "" {
        return;
      }
      ghost var rules, start := TunnelRules(env, endpoint), tables.chain.value;
      var ips := env.resolve(endpoint.host);
      ItoaIsNotEmpty(endpoint.port);
      for i := 0 to |ips|
        invariant tables.jumps == old(tables.jumps) && Grew(Some(start), tables.chain, rules)
        invariant tables.Reliable() ==> tables.chain.Some? && tables.chain.value == start + rules[..i]
      {
        assert rules[i] in rules && rules[..i + 1] == rules[..i] + [rules[i]];
        var _ := tables.Append(DestRule(ips[i] + "/32", Text.Itoa(endpoint.port)));
      }
      assert rules[..|rules|] == rules;
    }

    method AddBaseRules() returns (ok: bool)
      requires tables.chain == Some([])
      modifies tables
      ensures tables.jumps == old(tables.jumps) && (tables.Reliable() ==> ok)
      ensures Grew(Some([]), tables.chain, BaseRules(env, endpoint))
      ensures ok ==> forall r :: r in {LOOPBACK, DNS_UDP, DNS_TCP} ==> r in tables.chain.value
      ensures tables.Reliable() ==> tables.chain.value == BaseRules(env, endpoint)
    {
      ghost var all := BaseRules(env, endpoint);
      assert all[0] == LOOPBACK && all[|all| - 2] == DNS_UDP && all[|all| - 1] == DNS_TCP;
      ok := tables.Append(LOOPBACK);
      if !ok {
        return;
      }
      ghost var c1 := tables.chain;
      AddTunnelRules();
      GrewTwice(Some([]), c1, tables.chain, [LOOPBACK], TunnelRules(env, endpoint), all);
      assert tables.chain.value[0] == LOOPBACK;
      ok := tables.Append(DNS_UDP);
      if ok {
        ok := tables.Append(DNS_TCP);
      }
    }

    /** The loop of `Apply` over the entries; a failing entry is logged and skipped. */
    method AddEntries(entries: seq<NetworkEntry>)
      requires tables.chain.Some?
      modifies tables
      ensures tables.jumps == old(tables.jumps) && Grew(old(tables.chain), tables.chain, AllEntryRules(env, entries))
      ensures tables.Reliable() ==> tables.chain.Some? && tables.chain.value == old(tables.chain).value + AllEntryRules(env, entries)
    {
      ghost var start := tables.chain;
      for i := 0 to |entries|
        invariant tables.jumps == old(tables.jumps) && Grew(start, tables.chain, AllEntryRules(env, entries[..i]))
        invariant tables.Reliable() ==> tables.chain.Some? && tables.chain.value == start.value + AllEntryRules(env, entries[..i])
      {
        ghost var mid, before, step := tables.chain, AllEntryRules(env, entries[..i]), EntryRules(env, entries[i]);
        AddEntryRules(entries[i]);
        EntryRulesStep(env, entries, i);
        GrewTwice(start, mid, tables.chain, before, step, before + step);
        Text.Regroup(start.value, before, step);
      }
      assert entries[..|entries|] == entries;
    }

    /** The chain is some of the accepting rules, among them loopback and DNS, and a final drop. */
    ghost predicate Guards(entries: seq<NetworkEntry>)
      reads tables
    {
      exists rules :: tables.chain == Some(rules + [DROP_ALL]) && OnlyFrom(env, endpoint, entries, rules)
    }

    /** The chain is some of the accepting rules and has no drop. */
    ghost predicate Unguarded(entries: seq<NetworkEntry>)
      reads tables
    {
      tables.chain.Some? && AllFrom(env, endpoint, entries, tables.chain.value)
    }

    /** `Setup` with its chain creation, jump and default drop.  A failure leaves the chain as it was or without
        its drop. */
    method Init() returns (ok: bool)
      modifies tables
      ensures ok ==> Guards([]) && 0 < tables.jumps
      ensures !ok ==> tables.chain == old(tables.chain) || Unguarded([])
      ensures old(tables.jumps) <= tables.jumps <= old(tables.jumps) + 1
      ensures tables.Reliable() ==> ok && tables.chain == Some(FullChain(env, endpoint, []))
      ensures tables.Reliable() && old(tables.jumps) <= 1 ==> tables.jumps == 1
    {
      var present;
      ok, present := tables.NewChain();
      if !ok {
        if !present {
          return;
        }
        ok := tables.Flush();
        if !ok {
          return;
        }
      }
      ok := tables.EnsureJump();
      if !ok {
        return;
      }
      ok := AddBaseRules();
      ghost var rules := tables.chain.value;
      BaseOnly(env, endpoint, [], rules);
      if !ok {
        return;
      }
      assert tables.Reliable() ==> rules + [DROP_ALL] == FullChain(env, endpoint, []);
      ok := tables.Append(DROP_ALL);
    }

    /** A failure leaves the chain as it was or without its drop. */
    method Apply(entries: seq<NetworkEntry>) returns (ok: bool)
      modifies tables
      ensures !ok ==> tables.chain == old(tables.chain) || Unguarded(entries)
      ensures tables.jumps == old(tables.jumps) && (ok ==> Guards(entries))
      ensures tables.Reliable() && old(tables.chain).Some? ==> ok && tables.chain == Some(FullChain(env, endpoint, entries))
    {
      ok := tables.Flush();
      if !ok {
        return;
      }
      ok := AddBaseRules();
      ghost var base := tables.chain.value;
      BaseOnly(env, endpoint, entries, base);
      if !ok {
        return;
      }
      AddEntries(entries);
      ghost var rules := tables.chain.value;
      BaseAndEntries(env, endpoint, entries, base, rules);
      ok := tables.Append(DROP_ALL);
    }

    method Teardown()
      modifies tables
      ensures tables.Reliable() && old(tables.jumps) <= 1 ==> tables.chain.None? && tables.jumps == 0
    {
      tables.RemoveJump();
      var _ := tables.Flush();
      tables.DeleteChain();
    }
  }

  /** Accepting rules of the base and the entries, and no others. */
  ghost predicate AllFrom(env: Env, fw: Endpoint, entries: seq<NetworkEntry>, rules: seq<Rule>) {
    && AllAccept(rules)
    && forall r :: r in rules ==> r in BaseRules(env, fw) || r in AllEntryRules(env, entries)
  }

  ghost predicate OnlyFrom(env: Env, fw: Endpoint, entries: seq<NetworkEntry>, rules: seq<Rule>) {
    AllFrom(env, fw, entries, rules) && LOOPBACK in rules && DNS_UDP in rules && DNS_TCP in rules
  }

  lemma BaseOnly(env: Env, fw: Endpoint, entries: seq<NetworkEntry>, rules: seq<Rule>)
    requires Grew(Some([]), Some(rules), BaseRules(env, fw))
    ensures AllFrom(env, fw, entries, rules)
  {
    assert AllAccept(BaseRules(env, fw));
  }

  lemma BaseAndEntries(env: Env, fw: Endpoint, entries: seq<NetworkEntry>, base: seq<Rule>, rules: seq<Rule>)
    requires AllFrom(env, fw, entries, base) && Grew(Some(base), Some(rules), AllEntryRules(env, entries))
    ensures AllFrom(env, fw, entries, rules) && forall r :: r in base ==> r in rules
  {
    EntryRulesAccept(env, entries);
    forall i | 0 <= i < |rules|
      ensures rules[i].target.Accept? && (rules[i] in BaseRules(env, fw) || rules[i] in AllEntryRules(env, entries))
    {
      if i < |base| { assert rules[i] == base[i]; }
    }
    assert rules[..|base|] == base;
  }

  /** Without its drop the chain decides nothing it does not accept: such packets return to OUTPUT. */
  lemma {:induction false} UnguardedVerdict(env: Env, rules: seq<Rule>, p: Packet)
    requires AllAccept(rules)
    ensures VerdictOf(env, rules, p) == if Accepts(env, rules, p) then Decided(Accept) else Returned
  {
    if rules == [] {
    } else {
      UnguardedVerdict(env, rules[1..], p);
      assert rules == [rules[0]] + rules[1..];
      assert Accepts(env, rules, p) <==> Matches(env, rules[0], p) || Accepts(env, rules[1..], p);
    }
  }

  // ---------------------------------------------------------------- whole histories

  datatype Operation = Setup(endpoint: Endpoint) | Apply(entries: seq<NetworkEntry>)

  /** The endpoint of the last `Setup`, and the entries applied since. */
  function LastEndpoint(ops: seq<Operation>): Endpoint
    requires ops != [] && ops[0].Setup?
  {
    var last := ops[|ops| - 1];
    if last.Setup? then last.endpoint else LastEndpoint(ops[..|ops| - 1])
  }

  function LastEntries(ops: seq<Operation>): seq<NetworkEntry> {
    if ops == [] then [] else if ops[|ops| - 1].Setup? then [] else ops[|ops| - 1].entries
  }

  lemma LastStep(ops: seq<Operation>, i: nat)
    requires 0 < i < |ops| && ops[0].Setup?
    ensures LastEndpoint(ops[..i + 1]) == if ops[i].Setup? then ops[i].endpoint else LastEndpoint(ops[..i])
    ensures LastEntries(ops[..i + 1]) == if ops[i].Setup? then [] else ops[i].entries
  {
    assert ops[..i + 1][..i] == ops[..i];
  }

  /** After any history of setups and applies in which no command fails, starting from at most one jump,
      OUTPUT has exactly one jump, and a packet is accepted exactly when the last endpoint and entries
      permit it, else dropped. */
  method RunHistory(env: Env, tables: IpTables, ops: seq<Operation>)
    requires ops != [] && ops[0].Setup? && tables.Reliable() && tables.jumps <= 1
    modifies tables
    ensures tables.jumps == 1 && tables.chain.Some?
    ensures forall p :: VerdictOf(env, tables.chain.value, p)
                     == Decided(if Permitted(env, LastEndpoint(ops), LastEntries(ops), p) then Accept else Drop)
  {
    var fw := new Egress(env, ops[0].endpoint, tables);
    var _ := fw.Init();
    assert ops[..1] == [ops[0]];
    for i := 1 to |ops|
      invariant tables.jumps == 1 && fw.tables == tables && fw.env == env
      invariant fw.endpoint == LastEndpoint(ops[..i])
      invariant tables.chain == Some(FullChain(env, fw.endpoint, LastEntries(ops[..i])))
    {
      LastStep(ops, i);
      if ops[i].Setup? {
        fw := new Egress(env, ops[i].endpoint, tables);
        var _ := fw.Init();
      } else {
        var _ := fw.Apply(ops[i].entries);
      }
    }
    assert ops[..|ops|] == ops;
    forall p ensures VerdictOf(env, tables.chain.value, p)
                  == Decided(if Permitted(env, LastEndpoint(ops), LastEntries(ops), p) then Accept else Drop)
    {
      ChainIsPolicy(env, LastEndpoint(ops), LastEntries(ops), p);
    }
  }
}
