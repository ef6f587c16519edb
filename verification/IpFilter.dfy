/** Black and white lists of CIDR rules, compiled into binary tries that are changed in place. */
module IpFilter {
  import opened Basics
  import opened CidrModel

  /** A node refers to its children by their position in the trie's node list. */
  datatype TrieNode = TrieNode(zero: Option<nat>, one: Option<nat>, terminal: bool) {
    function Child(bit: bool): Option<nat> {
      if bit then one else zero
    }

    function WithChild(bit: bool, child: nat): TrieNode {
      if bit then this.(one := Some(child)) else this.(zero := Some(child))
    }
  }

  const NEW_NODE := TrieNode(None, None, false)

  /** A child's path is its parent's with one more bit. */
  ghost predicate LinksLead(nodes: seq<TrieNode>, paths: seq<Bits>)
    requires |paths| == |nodes|
  {
    forall i, b {:trigger nodes[i].Child(b)} :: 0 <= i < |nodes| && nodes[i].Child(b).Some? ==>
      nodes[i].Child(b).value < |nodes| && paths[nodes[i].Child(b).value] == paths[i] + [b]
  }

  /** Where a child is missing there is no node. */
  ghost predicate LinksComplete(nodes: seq<TrieNode>, paths: seq<Bits>)
    requires |paths| == |nodes|
  {
    forall i, b {:trigger nodes[i].Child(b)} :: 0 <= i < |nodes| && nodes[i].Child(b).None? ==> paths[i] + [b] !in paths
  }

  ghost predicate ParentsIn(paths: seq<Bits>) {
    forall p {:trigger Parent(p)} :: p in paths ==> Parent(p) in paths
  }

  /** Every node has a path of its own; following a child adds its bit. */
  ghost predicate Linked(nodes: seq<TrieNode>, paths: seq<Bits>) {
    && |paths| == |nodes|
    && (nodes != [] ==> paths[0] == [])
    && Distinct(paths)
    && LinksLead(nodes, paths)
    && LinksComplete(nodes, paths)
    && ParentsIn(paths)
  }

  /** The registered prefixes. */
  ghost function Terminals(nodes: seq<TrieNode>, paths: seq<Bits>): set<Bits>
    requires |paths| == |nodes|
  {
    set i | 0 <= i < |nodes| && nodes[i].terminal :: paths[i]
  }

  /** Some prefix in the set leads the address. */
  ghost predicate SomeLeads(prefixes: set<Bits>, address: Bits) {
    exists p :: p in prefixes && p <= address
  }

  /** No prefix in the set of length at most n leads the address. */
  ghost predicate NoneUpTo(prefixes: set<Bits>, address: Bits, n: nat) {
    forall p :: p in prefixes && p <= address ==> |p| > n
  }

  class BitTrie {
    var nodes: seq<TrieNode>
    const maxBits: nat
    ghost var paths: seq<Bits>

    ghost predicate Valid()
      reads this
    {
      Linked(nodes, paths)
    }

    ghost function Prefixes(): set<Bits>
      requires Valid()
      reads this
    {
      Terminals(nodes, paths)
    }

    constructor (maxBits: nat)
      ensures Valid() && Prefixes() == {} && this.maxBits == maxBits
    {
      this.nodes, this.maxBits, this.paths := [], maxBits, [];
    }

    /** The child of a node, made if it is missing. */
    method ChildOf(at: nat, bit: bool) returns (child: nat)
      requires Valid() && at < |nodes|
      modifies this
      ensures Valid() && child < |nodes| && paths[child] == old(paths)[at] + [bit]
      ensures Prefixes() == old(Prefixes()) && old(paths) <= paths
    {
      if nodes[at].Child(bit).None? {
        child := |nodes|;
        ghost var path := paths[at] + [bit];
        AddChild(nodes, paths, at, bit);
        nodes := nodes[at := nodes[at].WithChild(bit, child)] + [NEW_NODE];
        paths := paths + [path];
      } else {
        child := nodes[at].Child(bit).value;
      }
    }

    method Insert(network: nat, prefix: nat)
      requires Valid()
      modifies this
      ensures Valid()
      ensures Prefixes() == old(Prefixes()) + {TopBits(network, maxBits, if prefix <= maxBits then prefix else maxBits)}
    {
      var length := if prefix <= maxBits then prefix else maxBits;
      if nodes == [] {
        nodes, paths := [NEW_NODE], [[]];
      }
      var node: nat := 0;
      for i := 0 to length
        invariant Valid() && node < |nodes| && paths[node] == TopBits(network, maxBits, i)
        invariant Prefixes() == old(Prefixes())
      {
        var bit := Shr(network, maxBits - 1 - i) % 2 == 1;
        TopBitsStep(network, maxBits, i);
        node := ChildOf(node, bit);
      }
      MarkTerminal(nodes, paths, node);
      nodes := nodes[node := nodes[node].(terminal := true)];
    }

    /** Some registered prefix leads the address. */
    method Contains(ip: nat) returns (found: bool)
      requires Valid()
      ensures found <==> SomeLeads(Prefixes(), TopBits(ip, maxBits, maxBits))
    {
      ghost var address := TopBits(ip, maxBits, maxBits);
      if nodes == [] {
        return false;
      }
      if nodes[0].terminal {
        assert paths[0] in Prefixes();
        return true;
      }
      var node: nat := 0;
      OnPath(nodes, paths, address, 0, 0);
      for i := 0 to maxBits
        invariant node < |nodes| && paths[node] == address[..i]
        invariant NoneUpTo(Prefixes(), address, i)
      {
        var bit := Shr(ip, maxBits - 1 - i) % 2 == 1;
        assert address[..i + 1] == address[..i] + [bit];
        if nodes[node].Child(bit).None? {
          DeadEnd(nodes, paths, address, i + 1);
          return false;
        }
        node := nodes[node].Child(bit).value;
        OnPath(nodes, paths, address, node, i + 1);
        if nodes[node].terminal {
          assert paths[node] in Prefixes();
          return true;
        }
      }
      return false;
    }
  }

  // ---------- facts about tries ----------

  /** With a path, all its prefixes are there. */
  lemma {:induction false} PrefixClosed(nodes: seq<TrieNode>, paths: seq<Bits>, p: Bits, k: nat)
    requires Linked(nodes, paths) && p in paths && k <= |p|
    ensures p[..k] in paths
    decreases |p|
  {
    if k < |p| {
      var parent := Parent(p);
      PrefixClosed(nodes, paths, parent, k);
      assert parent[..k] == p[..k];
    } else {
      assert p[..k] == p;
    }
  }

  lemma AddChild(nodes: seq<TrieNode>, paths: seq<Bits>, at: nat, bit: bool)
    requires Linked(nodes, paths) && at < |nodes| && nodes[at].Child(bit).None?
    ensures var nodes' := nodes[at := nodes[at].WithChild(bit, |nodes|)] + [NEW_NODE];
            var paths' := paths + [paths[at] + [bit]];
            Linked(nodes', paths') && Terminals(nodes', paths') == Terminals(nodes, paths)
  {
    var nodes' := nodes[at := nodes[at].WithChild(bit, |nodes|)] + [NEW_NODE];
    var path := paths[at] + [bit];
    var paths' := paths + [path];
    assert path !in paths;
    assert Distinct(paths');
    assert Parent(path) == paths[at];
    assert ParentsIn(paths');
    forall i, b | 0 <= i < |nodes'| && nodes'[i].Child(b).Some?
      ensures nodes'[i].Child(b).value < |nodes'| && paths'[nodes'[i].Child(b).value] == paths'[i] + [b]
    {
      if i != at || b != bit {
        assert i < |nodes| && nodes'[i].Child(b) == nodes[i].Child(b);
      }
    }
    AddChildComplete(nodes, paths, nodes', paths', at, bit);
    SameTerminals(nodes, paths, nodes', paths');
  }

  lemma AddChildComplete(
    nodes: seq<TrieNode>, paths: seq<Bits>, nodes': seq<TrieNode>, paths': seq<Bits>, at: nat, bit: bool)
    requires Linked(nodes, paths) && at < |nodes| && nodes[at].Child(bit).None?
    requires nodes' == nodes[at := nodes[at].WithChild(bit, |nodes|)] + [NEW_NODE]
    requires paths' == paths + [paths[at] + [bit]]
    ensures LinksComplete(nodes', paths')
  {
    var path := paths[at] + [bit];
    forall i, b | 0 <= i < |nodes'| && nodes'[i].Child(b).None? ensures paths'[i] + [b] !in paths' {
      if i < |nodes| {
        assert nodes[i].Child(b).None?;
        SnocEqual(paths[i], b, paths[at], bit);
        assert paths[i] + [b] != path;
      } else {
        NothingBelow(nodes, paths, path, b);
        assert path + [b] != path;
      }
    }
  }

  lemma NothingBelow(nodes: seq<TrieNode>, paths: seq<Bits>, path: Bits, b: bool)
    requires Linked(nodes, paths) && path !in paths
    ensures path + [b] !in paths
  {
    assert Parent(path + [b]) == path;
  }

  lemma SameTerminals(nodes: seq<TrieNode>, paths: seq<Bits>, nodes': seq<TrieNode>, paths': seq<Bits>)
    requires |nodes| == |paths| && |nodes'| == |paths'| == |nodes| + 1 && paths <= paths'
    requires forall i :: 0 <= i < |nodes| ==> nodes'[i].terminal == nodes[i].terminal
    requires !nodes'[|nodes|].terminal
    ensures Terminals(nodes', paths') == Terminals(nodes, paths)
  {
    assert forall i :: 0 <= i < |nodes| ==> paths'[i] == paths[i];
  }

  lemma MarkTerminal(nodes: seq<TrieNode>, paths: seq<Bits>, at: nat)
    requires Linked(nodes, paths) && at < |nodes|
    ensures var nodes' := nodes[at := nodes[at].(terminal := true)];
            Linked(nodes', paths) && Terminals(nodes', paths) == Terminals(nodes, paths) + {paths[at]}
  {
    var nodes' := nodes[at := nodes[at].(terminal := true)];
    assert forall i, b :: 0 <= i < |nodes| ==> nodes'[i].Child(b) == nodes[i].Child(b);
    forall p ensures p in Terminals(nodes', paths) <==> p in Terminals(nodes, paths) + {paths[at]} {
      if p in Terminals(nodes, paths) {
        var i :| 0 <= i < |nodes| && nodes[i].terminal && paths[i] == p;
        assert nodes'[i].terminal;
      }
      assert nodes'[at].terminal;
    }
  }

  /** A node on the address's path that is not terminal: no registered prefix of that length leads the address. */
  lemma OnPath(nodes: seq<TrieNode>, paths: seq<Bits>, address: Bits, node: nat, i: nat)
    requires Linked(nodes, paths) && node < |nodes| && i <= |address| && paths[node] == address[..i]
    ensures !nodes[node].terminal ==> forall p :: p in Terminals(nodes, paths) && p <= address ==> |p| != i
  {
    forall p | p in Terminals(nodes, paths) && p <= address && |p| == i ensures nodes[node].terminal {
      var j :| 0 <= j < |nodes| && nodes[j].terminal && paths[j] == p;
      assert p == address[..i];
    }
  }

  /** No node at a prefix of the address: no registered prefix leads it from there on. */
  lemma DeadEnd(nodes: seq<TrieNode>, paths: seq<Bits>, address: Bits, k: nat)
    requires Linked(nodes, paths) && k <= |address| && address[..k] !in paths
    ensures forall p :: p in Terminals(nodes, paths) && p <= address ==> |p| < k
  {
    forall p | p in Terminals(nodes, paths) && p <= address ensures |p| < k {
      if k <= |p| {
        assert p[..k] == address[..k];
        PrefixClosed(nodes, paths, p, k);
      }
    }
  }

  // ---------- rule lists ----------

  /** One configured entry, as the text parsers read it: the part after the slash, and the address. */
  datatype PrefixText = NoPrefix | BadPrefix | Prefix(n: nat)

  datatype EntryText = EntryText(prefix: PrefixText, addr: Option<IpAddr>)

  datatype Fault = InvalidPrefix | InvalidAddress | PrefixTooLong

  /** The configured rule, before normalisation. */
  function RuleOf(e: EntryText): Result<Rule, Fault> {
    if e.prefix == BadPrefix then Err(InvalidPrefix)
    else if e.addr == None then Err(InvalidAddress)
    else
      var prefix := if e.prefix.Prefix? then e.prefix.n else e.addr.value.Width();
      if prefix > e.addr.value.Width() then Err(PrefixTooLong) else Ok(Rule(e.addr.value, prefix))
  }

  /** The entry covers the address: a bare address only itself, an address with /n what shares its version and first n bits. */
  predicate Matches(e: EntryText, ip: IpAddr) {
    && e.addr.Some?
    && match e.prefix
       case NoPrefix => ip == e.addr.value
       case Prefix(n) => ip.V4? == e.addr.value.V4? && SameFirstBits(ip, e.addr.value, n)
       case BadPrefix => false
  }

  predicate SameFirstBits(a: IpAddr, b: IpAddr, n: nat)
    requires a.V4? == b.V4?
  {
    n <= a.Width() && forall i :: 0 <= i < n ==> BitAt(a.bits, a.Width(), i) == BitAt(b.bits, b.Width(), i)
  }

  /** The entry is not accepted: its prefix or its address does not read, or the prefix is longer than the address. */
  predicate Refused(e: EntryText) {
    || e.prefix == BadPrefix
    || e.addr == None
    || (e.prefix.Prefix? && e.prefix.n > if e.addr.value.V4? then 32 else 128)
  }

  lemma EntryCovers(e: EntryText, ip: IpAddr)
    requires ip.Valid() && (e.addr.Some? ==> e.addr.value.Valid())
    ensures RuleOf(e).Err? <==> Refused(e)
    ensures RuleOf(e).Ok? ==> (Covers(RuleOf(e).value, ip) <==> Matches(e, ip))
  {
    if RuleOf(e).Ok? {
      var a, n, w := e.addr.value, RuleOf(e).value.prefix, e.addr.value.Width();
      if a.V4? == ip.V4? {
        MaskEqualIffTopBits(ip.bits, a.bits, w, n);
        TopBitsAgree(ip.bits, a.bits, w, n);
        TopBitsEach(ip.bits, a.bits, w, n);
        assert Shr(ip.bits, 0) == ip.bits && Shr(a.bits, 0) == a.bits;
      }
    }
  }

  ghost predicate SomeCovers(rules: seq<Rule>, ip: IpAddr) {
    exists r :: r in rules && Covers(r, ip)
  }

  ghost predicate SomeMatches(entries: seq<EntryText>, ip: IpAddr) {
    exists e :: e in entries && Matches(e, ip)
  }

  lemma RulesCover(entries: seq<EntryText>, ip: IpAddr)
    requires Readable(entries) && ip.Valid() && forall e :: e in entries ==> RuleOf(e).Ok?
    ensures SomeCovers(RulesOf(entries), ip) <==> SomeMatches(entries, ip)
  {
    forall i | 0 <= i < |entries| ensures Covers(RulesOf(entries)[i], ip) <==> Matches(entries[i], ip) {
      EntryCovers(entries[i], ip);
    }
    if SomeCovers(RulesOf(entries), ip) {
      var r :| r in RulesOf(entries) && Covers(r, ip);
      var i :| 0 <= i < |entries| && RulesOf(entries)[i] == r;
      assert entries[i] in entries;
    }
    if SomeMatches(entries, ip) {
      var e :| e in entries && Matches(e, ip);
      var i :| 0 <= i < |entries| && entries[i] == e;
      assert RulesOf(entries)[i] in RulesOf(entries);
    }
  }

  /** Addresses in entries are addresses. */
  predicate Readable(entries: seq<EntryText>) {
    forall e :: e in entries && e.addr.Some? ==> e.addr.value.Valid()
  }

  /** The rules of entries that all parse. */
  function RulesOf(entries: seq<EntryText>): seq<Rule>
    requires forall e :: e in entries ==> RuleOf(e).Ok?
  {
    seq(|entries|, i requires 0 <= i < |entries| => RuleOf(entries[i]).value)
  }

  predicate AllValid(rules: seq<Rule>) {
    forall r :: r in rules ==> r.Valid()
  }

  function LeadingBits(r: Rule): Bits
    requires r.Valid()
  {
    TopBits(r.network.bits, r.network.Width(), r.prefix)
  }

  /** The prefixes that rules of one version put in a trie. */
  ghost function PrefixesOf(rules: seq<Rule>, v4: bool): set<Bits>
    requires AllValid(rules)
  {
    set r | r in rules && r.Valid() && r.network.V4? == v4 :: LeadingBits(r)
  }

  /** Some prefix of the rules leads the address exactly when some rule covers it. */
  lemma PrefixesDecide(rules: seq<Rule>, ip: IpAddr)
    requires AllValid(rules) && ip.Valid()
    ensures SomeLeads(PrefixesOf(rules, ip.V4?), TopBits(ip.bits, ip.Width(), ip.Width()))
            <==> exists r :: r in rules && Covers(r, ip)
  {
    var address := TopBits(ip.bits, ip.Width(), ip.Width());
    forall r | r in rules && Covers(r, ip)
      ensures SomeLeads(PrefixesOf(rules, ip.V4?), address)
    {
      CoversIffLeads(r, ip);
      assert LeadingBits(r) in PrefixesOf(rules, ip.V4?);
    }
    forall p | p in PrefixesOf(rules, ip.V4?) && p <= address ensures exists r :: r in rules && Covers(r, ip) {
      var r :| r in rules && r.network.V4? == ip.V4? && p == LeadingBits(r);
      CoversIffLeads(r, ip);
    }
  }

  class Filter {
    const v4: BitTrie
    const v6: BitTrie
    var ruleCount: nat
    /** The configured rules, in order. */
    ghost var rules: seq<Rule>

    ghost predicate Valid()
      reads this, v4, v6
    {
      && v4 != v6 && v4.Valid() && v6.Valid() && v4.maxBits == 32 && v6.maxBits == 128
      && ruleCount == |rules|
      && AllValid(rules)
      && v4.Prefixes() == PrefixesOf(rules, true)
      && v6.Prefixes() == PrefixesOf(rules, false)
    }

    constructor ()
      ensures Valid() && rules == [] && fresh(v4) && fresh(v6)
    {
      v4 := new BitTrie(32);
      v6 := new BitTrie(128);
      ruleCount, rules := 0, [];
    }

    /** Add a configured rule, normalised by its mask. */
    method AddRule(r: Rule)
      requires Valid() && r.Valid()
      modifies this, v4, v6
      ensures Valid() && rules == old(rules) + [r]
    {
      var network := Masked(r.network, r.prefix);
      MaskEqualIffTopBits(r.network.bits, r.network.bits, r.network.Width(), r.prefix);
      if network.V4? {
        v4.Insert(network.bits, r.prefix);
      } else {
        v6.Insert(network.bits, r.prefix);
      }
      assert v4.Prefixes() == PrefixesOf(rules + [r], true) && v6.Prefixes() == PrefixesOf(rules + [r], false) by {
        OneMoreRule(rules, r, true);
        OneMoreRule(rules, r, false);
      }
      ruleCount, rules := ruleCount + 1, rules + [r];
    }

    /** The address is covered by some rule. */
    method Contains(ip: IpAddr) returns (found: bool)
      requires Valid() && ip.Valid()
      ensures found <==> SomeCovers(rules, ip)
    {
      PrefixesDecide(rules, ip);
      if ip.V4? {
        found := v4.Contains(ip.bits);
      } else {
        found := v6.Contains(ip.bits);
      }
    }

    method IsEmpty() returns (empty: bool)
      requires Valid()
      ensures empty <==> rules == []
    {
      empty := ruleCount == 0;
    }
  }

  lemma OneMoreRule(rules: seq<Rule>, r: Rule, v4: bool)
    requires AllValid(rules) && r.Valid()
    ensures AllValid(rules + [r])
    ensures PrefixesOf(rules + [r], v4) == PrefixesOf(rules, v4) + if r.network.V4? == v4 then {LeadingBits(r)} else {}
  {
    assert forall q :: q in rules + [r] <==> q in rules || q == r;
  }

  /** A filter from a list of entries, or the fault of the first entry that does not parse. */
  method Build(entries: seq<EntryText>) returns (result: Result<Filter, Fault>)
    requires Readable(entries)
    ensures result.Err? <==> exists e :: e in entries && Refused(e)
    ensures result.Ok? ==> fresh(result.value) && result.value.Valid() && |result.value.rules| == |entries|
    ensures result.Ok? ==> forall ip: IpAddr :: ip.Valid() ==>
              (SomeCovers(result.value.rules, ip) <==> SomeMatches(entries, ip))
    ensures result.Err? ==> exists i :: 0 <= i < |entries| && Refused(entries[i])
                                        && (forall j :: 0 <= j < i ==> !Refused(entries[j]))
                                        && result.error == if entries[i].prefix == BadPrefix then InvalidPrefix
                                                           else if entries[i].addr == None then InvalidAddress
                                                           else PrefixTooLong
  {
    var filter := new Filter();
    for i := 0 to |entries|
      invariant filter.Valid() && fresh(filter) && fresh(filter.v4) && fresh(filter.v6)
      invariant forall j :: 0 <= j < i ==> RuleOf(entries[j]).Ok?
      invariant |filter.rules| == i && forall j :: 0 <= j < i ==> filter.rules[j] == RuleOf(entries[j]).value
    {
      var rule := RuleOf(entries[i]);
      assert entries[i] in entries;
      if rule.Err? {
        return Err(rule.error);
      }
      filter.AddRule(rule.value);
    }
    assert filter.rules == RulesOf(entries);
    forall ip: IpAddr | ip.Valid() ensures SomeCovers(filter.rules, ip) <==> SomeMatches(entries, ip) {
      RulesCover(entries, ip);
    }
    return Ok(filter);
  }

  // ---------- admission ----------

  datatype Verdict = Allow | Blacklisted | NotWhitelisted

  /** Black list first; then the white list, unless it is empty. */
  method Check(blacklist: Filter, whitelist: Filter, ip: IpAddr) returns (verdict: Verdict)
    requires blacklist.Valid() && whitelist.Valid() && ip.Valid()
    ensures verdict == Blacklisted <==> SomeCovers(blacklist.rules, ip)
    ensures verdict == Allow <==>
              !SomeCovers(blacklist.rules, ip) && (whitelist.rules == [] || SomeCovers(whitelist.rules, ip))
  {
    var black := blacklist.Contains(ip);
    if black {
      return Blacklisted;
    }
    var empty := whitelist.IsEmpty();
    if !empty {
      var white := whitelist.Contains(ip);
      if !white {
        return NotWhitelisted;
      }
    }
    return Allow;
  }
}
