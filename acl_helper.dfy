/**
 * The ACL ruleset compiler: from an interface's ACL configuration and its enabled rules
 * (in id order) to the text of an nftables script, plus the choice the interface hooks
 * make between removing the scripts, the default-deny body and the full body, and the
 * substring safety check for script text.
 */
module AclHelper {
  import opened Wrappers
  import opened Strings
  import opened Numerals
  import opened OrderedGroups
  import opened AclSchema
  import opened AclTypes
  import opened AclService
  import opened Hooks

  const AclSetupScript := "/etc/wireguard/acl-setup.sh"
  const AclCleanupScript := "/etc/wireguard/acl-cleanup.sh"

  /** The command the hooks use to remove the filter table, with the table name fixed. */
  const TeardownCommand := DeleteTableCommand("wg_acl_v4")

  /**
   * Private, carrier-grade NAT and link-local IPv4 space (RFC 1918 section 3, RFC 6598,
   * RFC 3927), in the order the carve-out set lists them.
   */
  const PrivateIpv4Cidrs: seq<string> := ["10.0.0.0/8", "172.16.0.0/12", "192.168.0.0/16", "100.64.0.0/10", "169.254.0.0/16"]

  predicate IsSetNameSpecial(c: char) {
    c == '.' || c == ':' || c == '/' || c == '-'
  }

  /** Every `.`, `:`, `/` and `-` becomes `_`, so that the text can be part of a set name. */
  function Sanitize(s: string): (r: string)
    ensures |r| == |s|
    ensures forall i :: 0 <= i < |s| && IsSetNameSpecial(s[i]) ==> r[i] == '_'
    ensures forall i :: 0 <= i < |s| && !IsSetNameSpecial(s[i]) ==> r[i] == s[i]
  {
    seq(|s|, i requires 0 <= i < |s| => if IsSetNameSpecial(s[i]) then '_' else s[i])
  }

  /** No special character survives, and sanitising twice is sanitising once. */
  lemma SanitizeIdempotent(s: string)
    ensures forall i :: 0 <= i < |Sanitize(s)| ==> !IsSetNameSpecial(Sanitize(s)[i])
    ensures Sanitize(Sanitize(s)) == Sanitize(s)
  {
  }

  /** `description || fallback`: an absent or empty description falls back. */
  function CommentOr(description: Option<string>, fallback: string): string {
    if description.Some? && description.value != "" then description.value else fallback
  }

  /** The first lines of both bodies: drop the old table, then open the new one. */
  function TableHeader(tableName: string): string {
    DeleteTableCommand(tableName) + OpenTable(tableName)
  }

  /** `nft delete table ip <name> 2>/dev/null || true`. */
  function DeleteTableCommand(tableName: string): string {
    "nft delete table ip " + tableName + " 2>/dev/null || true"
  }

  /** The here-document that feeds the ruleset to `nft -f -`, up to the table's opening brace. */
  function OpenTable(tableName: string): string {
    "\nnft -f - <<'EOF'\ntable ip " + tableName + " {\n"
  }

  /** The carve-out set line. */
  function PrivateSetLine(): string {
    "  set private_ipv4 { type ipv4_addr; flags interval; elements = { " + Join(PrivateIpv4Cidrs, ", ") + " } }\n"
  }

  /** The accept line for traffic from the interface to public destinations. */
  function PublicEgressLine(interfaceId: string): string {
    "    iifname \"" + interfaceId + "\" oifname \"" + interfaceId + "\" ip daddr != @private_ipv4 accept comment \"Allow public egress\"\n"
  }

  function PrivateSet(allowPublicEgress: bool): string {
    if allowPublicEgress then PrivateSetLine() else ""
  }

  function PublicEgressRule(allowPublicEgress: bool, interfaceId: string): string {
    if allowPublicEgress then PublicEgressLine(interfaceId) else ""
  }

  const ChainOpen := "  chain forward {\n    type filter hook forward priority 0;\n"

  function PolicyLine(policy: Policy): string {
    "    policy " + PolicyName(policy) + ";\n"
  }

  const EstablishedLine := "    ct state established,related accept\n"

  /** The accept line for traffic that leaves through another interface. */
  function EgressLine(interfaceId: string): string {
    "    iifname \"" + interfaceId + "\" oifname != \"" + interfaceId + "\" accept comment \"Allow egress traffic\"\n"
  }

  /** The forward chain up to and including the egress accept line. */
  function ChainHead(policy: Policy, interfaceId: string): string {
    ChainOpen + PolicyLine(policy) + EstablishedLine + EgressLine(interfaceId)
  }

  const Footer := "  }\n}\nEOF"

  /** The body used when an enabled configuration has no enabled rules. */
  function DefaultDenyScript(config: AclConfig, interfaceId: string): string {
    TableHeader(config.filterTableName) + PrivateSet(config.allowPublicEgress)
    + ChainHead(config.defaultPolicy, interfaceId) + PublicEgressRule(config.allowPublicEgress, interfaceId) + Footer
  }

  /** The grouping key `source_destination_protocol`. */
  function GroupKey(r: AclRule): string {
    r.sourceCidr + "_" + r.destinationCidr + "_" + ProtocolName(r.protocol)
  }

  /** Each rule paired with its key, in input order. */
  function RulePairs(rules: seq<AclRule>): (ps: seq<(string, AclRule)>)
    ensures |ps| == |rules|
    ensures forall i :: 0 <= i < |rules| ==> ps[i] == (GroupKey(rules[i]), rules[i])
  {
    seq(|rules|, i requires 0 <= i < |rules| => (GroupKey(rules[i]), rules[i]))
  }

  /** The rules grouped by key, keys in first-appearance order. */
  function Grouped(rules: seq<AclRule>): Groups<AclRule> {
    Build(RulePairs(rules))
  }

  /** `groupRules.map((r) => r.ports)`. */
  function PortsOf(rs: seq<AclRule>): (ps: seq<string>)
    ensures |ps| == |rs| && forall i :: 0 <= i < |rs| ==> ps[i] == rs[i].ports
  {
    seq(|rs|, i requires 0 <= i < |rs| => rs[i].ports)
  }

  /** ``groupRules.map((r) => r.description || `Rule ${r.id}`)``. */
  function CommentsOf(rs: seq<AclRule>): (cs: seq<string>)
    ensures |cs| == |rs| && forall i :: 0 <= i < |rs| ==> cs[i] == CommentOr(rs[i].description, "Rule " + IntToString(rs[i].id))
  {
    seq(|rs|, i requires 0 <= i < |rs| => CommentOr(rs[i].description, "Rule " + IntToString(rs[i].id)))
  }

  function SetName(key: string): string {
    "ports_" + Sanitize(key)
  }

  function AllPorts(rs: seq<AclRule>): string {
    Join(PortsOf(rs), ", ")
  }

  /** The port set of a TCP/UDP group; an interval set when a range appears. */
  function PortSetLine(key: string, rs: seq<AclRule>): string {
    var allPorts := AllPorts(rs);
    var flags := if Contains(allPorts, "-") then "flags interval; " else "";
    "  set " + SetName(key) + " { type inet_service; " + flags + "elements = { " + allPorts + " } }"
  }

  function IcmpRuleLine(interfaceId: string, first: AclRule): string {
    "    iifname \"" + interfaceId + "\" oifname \"" + interfaceId + "\" ip saddr " + first.sourceCidr
    + " ip daddr " + first.destinationCidr + " ip protocol icmp accept comment \""
    + CommentOr(first.description, "ACL rule " + IntToString(first.id)) + "\""
  }

  function PortRuleLine(interfaceId: string, key: string, rs: seq<AclRule>): string
    requires |rs| > 0
  {
    "    iifname \"" + interfaceId + "\" oifname \"" + interfaceId + "\" ip saddr " + rs[0].sourceCidr
    + " ip daddr " + rs[0].destinationCidr + " " + ProtocolName(rs[0].protocol) + " dport @" + SetName(key)
    + " accept comment \"" + Join(CommentsOf(rs), ", ") + "\""
  }

  /** What one group contributes to the port sets: nothing for an ICMP group. */
  function GroupPortSets(members: map<string, seq<AclRule>>, key: string): seq<string> {
    if key !in members || |members[key]| == 0 || members[key][0].protocol == Icmp then []
    else [PortSetLine(key, members[key])]
  }

  /** What one group contributes to the rule lines: one line. */
  function GroupRuleLines(members: map<string, seq<AclRule>>, key: string, interfaceId: string): seq<string> {
    if key !in members || |members[key]| == 0 then []
    else if members[key][0].protocol == Icmp then [IcmpRuleLine(interfaceId, members[key][0])]
    else [PortRuleLine(interfaceId, key, members[key])]
  }

  function PortSetsOf(members: map<string, seq<AclRule>>, keys: seq<string>): seq<string>
    decreases |keys|
  {
    if |keys| == 0 then []
    else PortSetsOf(members, keys[..|keys| - 1]) + GroupPortSets(members, keys[|keys| - 1])
  }

  function RuleLinesOf(members: map<string, seq<AclRule>>, keys: seq<string>, interfaceId: string): seq<string>
    decreases |keys|
  {
    if |keys| == 0 then []
    else RuleLinesOf(members, keys[..|keys| - 1], interfaceId) + GroupRuleLines(members, keys[|keys| - 1], interfaceId)
  }

  /** The full body, given the port sets and rule lines the groups produced. */
  function FullBody(config: AclConfig, interfaceId: string, portSets: seq<string>, ruleLines: seq<string>): string {
    TableHeader(config.filterTableName)
    + (if |portSets| > 0 then Join(portSets, "\n") + "\n" else "")
    + PrivateSet(config.allowPublicEgress)
    + ChainHead(config.defaultPolicy, interfaceId)
    + PublicEgressRule(config.allowPublicEgress, interfaceId)
    + Join(ruleLines, "\n") + "\n" + Footer
  }

  /** The full body for a list of rules. */
  function NftablesScript(config: AclConfig, rules: seq<AclRule>, interfaceId: string): string {
    var g := Grouped(rules);
    FullBody(config, interfaceId, PortSetsOf(g.members, g.order), RuleLinesOf(g.members, g.order, interfaceId))
  }

  /** The full body, built as the compiler builds it: group the rules, then emit each group. */
  method GenerateNftablesScript(config: AclConfig, rules: seq<AclRule>, interfaceId: string) returns (script: string)
    ensures script == NftablesScript(config, rules, interfaceId)
  {
    var rulesByGroup := GroupRules(rules);
    var portSets, ruleLines := EmitGroups(rulesByGroup, interfaceId);
    script := FullBody(config, interfaceId, portSets, ruleLines);
  }

  /** The first loop: fill the map from keys to rules, one rule at a time. */
  method GroupRules(rules: seq<AclRule>) returns (rulesByGroup: Groups<AclRule>)
    ensures rulesByGroup == Grouped(rules)
    ensures forall k :: k in rulesByGroup.order ==> k in rulesByGroup.members
  {
    var pairs := RulePairs(rules);
    rulesByGroup := Empty();
    var i := 0;
    while i < |rules|
      invariant 0 <= i <= |rules|
      invariant rulesByGroup == Build(pairs[..i])
    {
      var rule := rules[i];
      var key := GroupKey(rule);
      var existing := if key in rulesByGroup.members then rulesByGroup.members[key] else [];
      existing := existing + [rule];
      var order := if key in rulesByGroup.members then rulesByGroup.order else rulesByGroup.order + [key];
      rulesByGroup := Groups(order, rulesByGroup.members[key := existing]);
      assert pairs[..i + 1][..i] == pairs[..i];
      i := i + 1;
    }
    assert pairs[..|rules|] == pairs;
    BuildOrderInMembers(pairs);
  }

  lemma EmitStep(members: map<string, seq<AclRule>>, keys: seq<string>, j: int, interfaceId: string)
    requires 0 <= j < |keys|
    ensures PortSetsOf(members, keys[..j + 1]) == PortSetsOf(members, keys[..j]) + GroupPortSets(members, keys[j])
    ensures RuleLinesOf(members, keys[..j + 1], interfaceId)
            == RuleLinesOf(members, keys[..j], interfaceId) + GroupRuleLines(members, keys[j], interfaceId)
  {
    assert keys[..j + 1][..j] == keys[..j];
  }

  /** The second loop: one rule line per group, and a port set per TCP/UDP group. */
  method EmitGroups(rulesByGroup: Groups<AclRule>, interfaceId: string) returns (portSets: seq<string>, ruleLines: seq<string>)
    requires forall k :: k in rulesByGroup.order ==> k in rulesByGroup.members
    ensures portSets == PortSetsOf(rulesByGroup.members, rulesByGroup.order)
    ensures ruleLines == RuleLinesOf(rulesByGroup.members, rulesByGroup.order, interfaceId)
  {
    portSets, ruleLines := [], [];
    var keys := rulesByGroup.order;
    var j := 0;
    while j < |keys|
      invariant 0 <= j <= |keys|
      invariant portSets == PortSetsOf(rulesByGroup.members, keys[..j])
      invariant ruleLines == RuleLinesOf(rulesByGroup.members, keys[..j], interfaceId)
    {
      var key := keys[j];
      EmitStep(rulesByGroup.members, keys, j, interfaceId);
      var groupRules := rulesByGroup.members[key];
      if |groupRules| == 0 {
        j := j + 1;
        continue;
      }
      var firstRule := groupRules[0];
      if firstRule.protocol == Icmp {
        ruleLines := ruleLines + [IcmpRuleLine(interfaceId, firstRule)];
      } else {
        portSets := portSets + [PortSetLine(key, groupRules)];
        ruleLines := ruleLines + [PortRuleLine(interfaceId, key, groupRules)];
      }
      j := j + 1;
    }
    assert keys[..|keys|] == keys;
  }

  /** The forward chain sets the policy, accepts established traffic and lets traffic leave the interface. */
  lemma ChainHeadLines(policy: Policy, interfaceId: string)
    ensures Contains(ChainHead(policy, interfaceId), PolicyLine(policy))
    ensures Contains(ChainHead(policy, interfaceId), EstablishedLine)
    ensures Contains(ChainHead(policy, interfaceId), EgressLine(interfaceId))
  {
    var o, p, e, g := ChainOpen, PolicyLine(policy), EstablishedLine, EgressLine(interfaceId);
    assert ChainHead(policy, interfaceId) == o + p + (e + g);
    ContainsInfix(o, p, e + g);
    assert ChainHead(policy, interfaceId) == (o + p) + e + g;
    ContainsInfix(o + p, e, g);
    assert ChainHead(policy, interfaceId) == (o + p + e) + g + "";
    ContainsInfix(o + p + e, g, "");
  }

  /** Where the first, a middle and the last piece of a concatenation sit. */
  lemma FramePieces(a: string, b: string, c: string, d: string, e: string, f: string, g: string, h: string)
    ensures StartsWith(a + b + c + d + e + f + g + h, a)
    ensures Contains(a + b + c + d + e + f + g + h, d)
    ensures EndsWith(a + b + c + d + e + f + g + h, h)
  {
    var all := a + b + c + d + e + f + g + h;
    assert all == a + (b + c + d + e + f + g + h);
    StartsWithConcat(a, b + c + d + e + f + g + h);
    assert all == (a + b + c) + d + (e + f + g + h);
    ContainsInfix(a + b + c, d, e + f + g + h);
    assert all == (a + b + c + d + e + f + g) + h;
    EndsWithConcat(a + b + c + d + e + f + g, h);
  }

  lemma DropEmpty(a: string, b: string, c: string, d: string, e: string)
    ensures a + b + c + d + e == a + b + "" + c + d + "" + "" + e
  {
  }

  /**
   * Both bodies open by dropping and recreating the configured table, contain the same
   * forward chain head, and close the chain, the table and the here-document.
   */
  lemma BodiesShareFrame(config: AclConfig, portSets: seq<string>, ruleLines: seq<string>, interfaceId: string)
    ensures StartsWith(DefaultDenyScript(config, interfaceId), TableHeader(config.filterTableName))
    ensures StartsWith(FullBody(config, interfaceId, portSets, ruleLines), TableHeader(config.filterTableName))
    ensures Contains(DefaultDenyScript(config, interfaceId), ChainHead(config.defaultPolicy, interfaceId))
    ensures Contains(FullBody(config, interfaceId, portSets, ruleLines), ChainHead(config.defaultPolicy, interfaceId))
    ensures EndsWith(DefaultDenyScript(config, interfaceId), Footer)
    ensures EndsWith(FullBody(config, interfaceId, portSets, ruleLines), Footer)
  {
    DenyFrame(config, interfaceId);
    FullFrame(config, portSets, ruleLines, interfaceId);
  }

  lemma DenyFrame(config: AclConfig, interfaceId: string)
    ensures StartsWith(DefaultDenyScript(config, interfaceId), TableHeader(config.filterTableName))
    ensures Contains(DefaultDenyScript(config, interfaceId), ChainHead(config.defaultPolicy, interfaceId))
    ensures EndsWith(DefaultDenyScript(config, interfaceId), Footer)
  {
    var h := TableHeader(config.filterTableName);
    var c := ChainHead(config.defaultPolicy, interfaceId);
    var ps := PrivateSet(config.allowPublicEgress);
    var pe := PublicEgressRule(config.allowPublicEgress, interfaceId);
    FramePieces(h, ps, "", c, pe, "", "", Footer);
    DropEmpty(h, ps, c, pe, Footer);
  }

  lemma FullFrame(config: AclConfig, portSets: seq<string>, ruleLines: seq<string>, interfaceId: string)
    ensures StartsWith(FullBody(config, interfaceId, portSets, ruleLines), TableHeader(config.filterTableName))
    ensures Contains(FullBody(config, interfaceId, portSets, ruleLines), ChainHead(config.defaultPolicy, interfaceId))
    ensures EndsWith(FullBody(config, interfaceId, portSets, ruleLines), Footer)
  {
    var h := TableHeader(config.filterTableName);
    var c := ChainHead(config.defaultPolicy, interfaceId);
    var ps := PrivateSet(config.allowPublicEgress);
    var pe := PublicEgressRule(config.allowPublicEgress, interfaceId);
    var sets := if |portSets| > 0 then Join(portSets, "\n") + "\n" else "";
    FramePieces(h, sets, ps, c, pe, Join(ruleLines, "\n"), "\n", Footer);
  }

  /** The chain lines are in both bodies, whatever the rules. */
  lemma BodiesShareChainLines(config: AclConfig, portSets: seq<string>, ruleLines: seq<string>, interfaceId: string)
    ensures Contains(DefaultDenyScript(config, interfaceId), PolicyLine(config.defaultPolicy))
    ensures Contains(FullBody(config, interfaceId, portSets, ruleLines), PolicyLine(config.defaultPolicy))
    ensures Contains(DefaultDenyScript(config, interfaceId), EstablishedLine)
    ensures Contains(FullBody(config, interfaceId, portSets, ruleLines), EstablishedLine)
    ensures Contains(DefaultDenyScript(config, interfaceId), EgressLine(interfaceId))
    ensures Contains(FullBody(config, interfaceId, portSets, ruleLines), EgressLine(interfaceId))
  {
    BodiesShareFrame(config, portSets, ruleLines, interfaceId);
    var c := ChainHead(config.defaultPolicy, interfaceId);
    ChainHeadLines(config.defaultPolicy, interfaceId);
    ContainsTransitive(DefaultDenyScript(config, interfaceId), c, PolicyLine(config.defaultPolicy));
    ContainsTransitive(FullBody(config, interfaceId, portSets, ruleLines), c, PolicyLine(config.defaultPolicy));
    ContainsTransitive(DefaultDenyScript(config, interfaceId), c, EstablishedLine);
    ContainsTransitive(FullBody(config, interfaceId, portSets, ruleLines), c, EstablishedLine);
    ContainsTransitive(DefaultDenyScript(config, interfaceId), c, EgressLine(interfaceId));
    ContainsTransitive(FullBody(config, interfaceId, portSets, ruleLines), c, EgressLine(interfaceId));
  }

  /** `on` is `off` with `x` inserted at one place and `y` at a later one. */
  ghost predicate GainsTwo(off: string, on: string, x: string, y: string) {
    exists p, q, r :: off == p + q + r && on == p + x + q + y + r
  }

  lemma GainsTwoAt(a: string, c: string, f: string, x: string, y: string)
    ensures GainsTwo(a + "" + c + "" + f, a + x + c + y + f, x, y)
  {
    assert a + "" + c + "" + f == a + c + f;
  }

  /**
   * Allowing public egress changes a body in exactly one way: the carve-out set line goes
   * in before the chain and the public-egress accept line after the egress line.
   */
  lemma PublicEgressToggle(config: AclConfig, portSets: seq<string>, ruleLines: seq<string>, interfaceId: string)
    ensures GainsTwo(DefaultDenyScript(config.(allowPublicEgress := false), interfaceId),
                     DefaultDenyScript(config.(allowPublicEgress := true), interfaceId),
                     PrivateSetLine(), PublicEgressLine(interfaceId))
    ensures GainsTwo(FullBody(config.(allowPublicEgress := false), interfaceId, portSets, ruleLines),
                     FullBody(config.(allowPublicEgress := true), interfaceId, portSets, ruleLines),
                     PrivateSetLine(), PublicEgressLine(interfaceId))
  {
    DenyToggle(config, interfaceId);
    FullToggle(config, portSets, ruleLines, interfaceId);
  }

  lemma DenyToggle(config: AclConfig, interfaceId: string)
    ensures GainsTwo(DefaultDenyScript(config.(allowPublicEgress := false), interfaceId),
                     DefaultDenyScript(config.(allowPublicEgress := true), interfaceId),
                     PrivateSetLine(), PublicEgressLine(interfaceId))
  {
    GainsTwoAt(TableHeader(config.filterTableName), ChainHead(config.defaultPolicy, interfaceId), Footer,
               PrivateSetLine(), PublicEgressLine(interfaceId));
  }

  lemma FullToggle(config: AclConfig, portSets: seq<string>, ruleLines: seq<string>, interfaceId: string)
    ensures GainsTwo(FullBody(config.(allowPublicEgress := false), interfaceId, portSets, ruleLines),
                     FullBody(config.(allowPublicEgress := true), interfaceId, portSets, ruleLines),
                     PrivateSetLine(), PublicEgressLine(interfaceId))
  {
    var h := TableHeader(config.filterTableName);
    var sets := if |portSets| > 0 then Join(portSets, "\n") + "\n" else "";
    var c := ChainHead(config.defaultPolicy, interfaceId);
    var lines := Join(ruleLines, "\n");
    var ps, pe := PrivateSetLine(), PublicEgressLine(interfaceId);
    Regroup(h, sets, "", c, "", lines, "\n", Footer);
    Regroup(h, sets, ps, c, pe, lines, "\n", Footer);
    GainsTwoAt(h + sets, c, lines + "\n" + Footer, ps, pe);
  }

  lemma Regroup(a: string, b: string, x: string, c: string, y: string, d: string, e: string, f: string)
    ensures a + b + x + c + y + d + e + f == (a + b) + x + c + y + (d + e + f)
  {
  }


  /** Each key yields exactly one rule line, group by group in key order. */
  lemma {:induction false} RuleLinesOfEach(members: map<string, seq<AclRule>>, keys: seq<string>, interfaceId: string)
    requires forall k :: k in keys ==> k in members && |members[k]| > 0
    ensures |RuleLinesOf(members, keys, interfaceId)| == |keys|
    ensures forall i :: 0 <= i < |keys| ==> [RuleLinesOf(members, keys, interfaceId)[i]] == GroupRuleLines(members, keys[i], interfaceId)
    decreases |keys|
  {
    if |keys| > 0 {
      var init := keys[..|keys| - 1];
      assert forall k :: k in init ==> k in keys;
      RuleLinesOfEach(members, init, interfaceId);
      forall i | 0 <= i < |keys|
        ensures [RuleLinesOf(members, keys, interfaceId)[i]] == GroupRuleLines(members, keys[i], interfaceId)
      {
        if i < |keys| - 1 {
          assert keys[i] == init[i];
        }
      }
    }
  }

  /**
   * One rule line per distinct key, the keys listed once each, exactly the keys of the
   * input rules, in the order of their first appearance.
   */
  lemma OneRuleLinePerKey(rules: seq<AclRule>, interfaceId: string)
    ensures NoDuplicates(Grouped(rules).order)
    ensures forall k :: k in Grouped(rules).order <==> k in Keys(RulePairs(rules))
    ensures forall i :: 0 <= i < |rules| ==> Keys(RulePairs(rules))[i] == GroupKey(rules[i])
    ensures forall p, q :: 0 <= p < q < |Grouped(rules).order| ==>
              FirstIndex(Keys(RulePairs(rules)), Grouped(rules).order[p]) < FirstIndex(Keys(RulePairs(rules)), Grouped(rules).order[q])
    ensures |RuleLinesOf(Grouped(rules).members, Grouped(rules).order, interfaceId)| == |Grouped(rules).order|
    ensures forall i :: 0 <= i < |Grouped(rules).order| ==>
              [RuleLinesOf(Grouped(rules).members, Grouped(rules).order, interfaceId)[i]]
              == GroupRuleLines(Grouped(rules).members, Grouped(rules).order[i], interfaceId)
  {
    var ps := RulePairs(rules);
    BuildWellFormed(ps);
    BuildFirstAppearance(ps);
    RuleLinesOfEach(Build(ps).members, Build(ps).order, interfaceId);
  }

  /** The last four characters of a key name its protocol. */
  function ProtocolSuffix(p: Protocol): string {
    match p
    case Tcp => "_tcp"
    case Udp => "_udp"
    case Icmp => "icmp"
  }

  lemma KeySuffix(r: AclRule)
    ensures EndsWith(GroupKey(r), ProtocolSuffix(r.protocol))
  {
    var a := r.sourceCidr + "_" + r.destinationCidr;
    match r.protocol
    case Tcp =>
      assert GroupKey(r) == a + "_tcp";
      EndsWithConcat(a, "_tcp");
    case Udp =>
      assert GroupKey(r) == a + "_udp";
      EndsWithConcat(a, "_udp");
    case Icmp =>
      assert GroupKey(r) == (a + "_i") + "cmp" && GroupKey(r) == a + "_" + "icmp";
      EndsWithConcat(a + "_", "icmp");
  }

  /** Rules with the same key have the same protocol. */
  lemma KeyDeterminesProtocol(r1: AclRule, r2: AclRule)
    requires GroupKey(r1) == GroupKey(r2)
    ensures r1.protocol == r2.protocol
  {
    KeySuffix(r1);
    KeySuffix(r2);
  }

  /** Every rule of a group carries the group's key, so the whole group shares one protocol. */
  lemma GroupsShareKey(rules: seq<AclRule>)
    ensures forall k, j :: k in Grouped(rules).members && 0 <= j < |Grouped(rules).members[k]| ==>
              GroupKey(Grouped(rules).members[k][j]) == k && Grouped(rules).members[k][j] in rules
  {
    var ps := RulePairs(rules);
    BuildMembers(ps);
    forall k, j | k in Build(ps).members && 0 <= j < |Build(ps).members[k]|
      ensures GroupKey(Build(ps).members[k][j]) == k && Build(ps).members[k][j] in rules
    {
      var m := Build(ps).members[k][j];
      assert m in ValuesFor(ps, k);
      ValuesForOrigin(ps, k, m);
      var t :| 0 <= t < |ps| && ps[t] == (k, m);
      assert rules[t] == m;
    }
  }

  /** The keys whose group is not ICMP, in key order: the groups that get a port set. */
  function NonIcmpKeys(members: map<string, seq<AclRule>>, keys: seq<string>): (ks: seq<string>)
    ensures |ks| <= |keys|
    decreases |keys|
  {
    if |keys| == 0 then []
    else
      var k := keys[|keys| - 1];
      NonIcmpKeys(members, keys[..|keys| - 1])
      + (if k in members && |members[k]| > 0 && members[k][0].protocol != Icmp then [k] else [])
  }

  /** The port sets are those of the non-ICMP groups, one each, in key order. */
  lemma {:induction false} PortSetsOfNonIcmp(members: map<string, seq<AclRule>>, keys: seq<string>)
    ensures |PortSetsOf(members, keys)| == |NonIcmpKeys(members, keys)|
    ensures forall k :: k in NonIcmpKeys(members, keys) <==>
              k in keys && k in members && |members[k]| > 0 && members[k][0].protocol != Icmp
    ensures forall i :: 0 <= i < |NonIcmpKeys(members, keys)| ==>
              NonIcmpKeys(members, keys)[i] in members
              && PortSetsOf(members, keys)[i] == PortSetLine(NonIcmpKeys(members, keys)[i], members[NonIcmpKeys(members, keys)[i]])
    decreases |keys|
  {
    if |keys| > 0 {
      var init := keys[..|keys| - 1];
      PortSetsOfNonIcmp(members, init);
      assert keys == init + [keys[|keys| - 1]];
    }
  }

  /** The set is an interval set exactly when some member's ports contain a range. */
  lemma FlagsIntervalIff(rs: seq<AclRule>)
    ensures Contains(AllPorts(rs), "-") <==> exists i :: 0 <= i < |rs| && '-' in rs[i].ports
  {
    assert "-" == ['-'];
    ContainsChar(AllPorts(rs), '-');
    JoinHasChar(PortsOf(rs), ", ", '-');
    if exists k :: 0 <= k < |PortsOf(rs)| && '-' in PortsOf(rs)[k] {
      var k :| 0 <= k < |PortsOf(rs)| && '-' in PortsOf(rs)[k];
      assert '-' in rs[k].ports;
    }
    if exists i :: 0 <= i < |rs| && '-' in rs[i].ports {
      var i :| 0 <= i < |rs| && '-' in rs[i].ports;
      assert '-' in PortsOf(rs)[i];
    }
  }

  lemma {:induction false} PortSetsOfContains(members: map<string, seq<AclRule>>, keys: seq<string>, k: string)
    requires k in keys && k in members && |members[k]| > 0 && members[k][0].protocol != Icmp
    ensures PortSetLine(k, members[k]) in PortSetsOf(members, keys)
    decreases |keys|
  {
    var init := keys[..|keys| - 1];
    if keys[|keys| - 1] != k {
      assert k in init;
      PortSetsOfContains(members, init, k);
    }
  }

  lemma {:induction false} RuleLinesOfContains(members: map<string, seq<AclRule>>, keys: seq<string>, k: string, interfaceId: string)
    requires k in keys && k in members && |members[k]| > 0
    ensures GroupRuleLines(members, k, interfaceId)[0] in RuleLinesOf(members, keys, interfaceId)
    decreases |keys|
  {
    var init := keys[..|keys| - 1];
    if keys[|keys| - 1] != k {
      assert k in init;
      RuleLinesOfContains(members, init, k, interfaceId);
    }
  }

  /**
   * Every TCP/UDP rule is published: the port set of its group is in the body and lists
   * its ports. Every ICMP rule's group has its accept line in the body.
   */
  lemma EveryRuleCovered(rules: seq<AclRule>, i: int, interfaceId: string)
    requires 0 <= i < |rules|
    ensures GroupKey(rules[i]) in Grouped(rules).members
    ensures rules[i].protocol != Icmp ==>
              && PortSetLine(GroupKey(rules[i]), Grouped(rules).members[GroupKey(rules[i])])
                 in PortSetsOf(Grouped(rules).members, Grouped(rules).order)
              && Contains(AllPorts(Grouped(rules).members[GroupKey(rules[i])]), rules[i].ports)
    ensures rules[i].protocol == Icmp ==>
              && |Grouped(rules).members[GroupKey(rules[i])]| > 0
              && IcmpRuleLine(interfaceId, Grouped(rules).members[GroupKey(rules[i])][0])
                 in RuleLinesOf(Grouped(rules).members, Grouped(rules).order, interfaceId)
  {
    var ps := RulePairs(rules);
    var k := GroupKey(rules[i]);
    var g := Build(ps);
    ValuesForContains(ps, i);
    BuildMembers(ps);
    BuildWellFormed(ps);
    assert k in g.members;
    var group := g.members[k];
    assert rules[i] in group;
    GroupsShareKey(rules);
    assert Grouped(rules) == g && |group| > 0;
    assert GroupKey(group[0]) == k;
    KeyDeterminesProtocol(group[0], rules[i]);
    assert k in g.order;
    if rules[i].protocol != Icmp {
      PortSetsOfContains(g.members, g.order, k);
      var j :| 0 <= j < |group| && group[j] == rules[i];
      assert PortsOf(group)[j] == rules[i].ports;
      JoinContainsPart(PortsOf(group), ", ", j);
    } else {
      RuleLinesOfContains(g.members, g.order, k, interfaceId);
    }
  }

  /** The safety gate for script text, with the two errors it throws. */
  function ValidateScript(script: string): (r: Result<bool, string>)
    ensures r.Success? ==> r.value
    ensures r == Failure("Unsafe script detected") <==> Contains(script, "rm -rf") || Contains(script, "dd if=")
    ensures r == Failure("Invalid script: missing nft commands") <==>
              !Contains(script, "rm -rf") && !Contains(script, "dd if=") && !Contains(script, "nft") && Trim(script) != ""
    ensures r == Success(true) <==>
              !Contains(script, "rm -rf") && !Contains(script, "dd if=") && (Contains(script, "nft") || Trim(script) == "")
  {
    if Contains(script, "rm -rf") || Contains(script, "dd if=") then Failure("Unsafe script detected")
    else if !Contains(script, "nft") && |Trim(script)| > 0 then Failure("Invalid script: missing nft commands")
    else Success(true)
  }

  /** Empty and white-space-only text passes the gate. */
  lemma BlankScriptAccepted(script: string)
    requires forall i :: 0 <= i < |script| ==> IsSpace(script[i])
    ensures ValidateScript(script) == Success(true)
  {
    TrimEmptyIff(script);
    ContainedCharIn(script, "rm -rf", 0);
    ContainedCharIn(script, "dd if=", 0);
  }

  /** Both bodies begin by deleting the configured table, so they always mention `nft`. */
  lemma BodiesStartWithDelete(config: AclConfig, portSets: seq<string>, ruleLines: seq<string>, interfaceId: string)
    ensures StartsWith(DefaultDenyScript(config, interfaceId), DeleteTableCommand(config.filterTableName))
    ensures StartsWith(FullBody(config, interfaceId, portSets, ruleLines), DeleteTableCommand(config.filterTableName))
    ensures Contains(Shebang + DefaultDenyScript(config, interfaceId), "nft")
    ensures Contains(Shebang + FullBody(config, interfaceId, portSets, ruleLines), "nft")
  {
    var tn := config.filterTableName;
    BodiesShareFrame(config, portSets, ruleLines, interfaceId);
    StartsWithConcat(DeleteTableCommand(tn), OpenTable(tn));
    var d, f := DefaultDenyScript(config, interfaceId), FullBody(config, interfaceId, portSets, ruleLines);
    StartsWithTransitive(d, TableHeader(tn), DeleteTableCommand(tn));
    StartsWithTransitive(f, TableHeader(tn), DeleteTableCommand(tn));
    NftAfterShebang(d, tn);
    NftAfterShebang(f, tn);
  }

  lemma NftAfterShebang(body: string, tableName: string)
    requires StartsWith(body, DeleteTableCommand(tableName))
    ensures Contains(Shebang + body, "nft")
  {
    var del := DeleteTableCommand(tableName);
    assert StartsWith(del, "nft") by {
      var lead := "nft delete table ip ";
      assert StartsWith(lead, "nft");
      StartsWithConcat(lead, tableName);
      StartsWithConcat(lead + tableName, " 2>/dev/null || true");
      StartsWithTransitive(lead + tableName, lead, "nft");
      StartsWithTransitive(del, lead + tableName, "nft");
    }
    StartsWithTransitive(body, del, "nft");
    assert body == "nft" + body[3..];
    assert Shebang + body == Shebang + "nft" + body[3..];
    ContainsInfix(Shebang, "nft", body[3..]);
  }

  /** A table name that smuggles in `rm -rf` makes the gate reject the generated body. */
  lemma UnsafeTableNameRejected(config: AclConfig, portSets: seq<string>, ruleLines: seq<string>, interfaceId: string)
    requires Contains(config.filterTableName, "rm -rf")
    ensures ValidateScript(Shebang + FullBody(config, interfaceId, portSets, ruleLines)) == Failure("Unsafe script detected")
    ensures ValidateScript(Shebang + DefaultDenyScript(config, interfaceId)) == Failure("Unsafe script detected")
  {
    var tn := config.filterTableName;
    BodiesStartWithDelete(config, portSets, ruleLines, interfaceId);
    ContainsExtend(tn, "rm -rf", "nft delete table ip ", " 2>/dev/null || true");
    UnsafePrefix(DefaultDenyScript(config, interfaceId), DeleteTableCommand(tn));
    UnsafePrefix(FullBody(config, interfaceId, portSets, ruleLines), DeleteTableCommand(tn));
  }

  lemma UnsafePrefix(body: string, prefix: string)
    requires StartsWith(body, prefix) && Contains(prefix, "rm -rf")
    ensures Contains(Shebang + body, "rm -rf")
  {
    StartsWithContains(body, prefix);
    ContainsTransitive(body, prefix, "rm -rf");
    assert Shebang + body == Shebang + body + [];
    ContainsExtend(body, "rm -rf", Shebang, []);
  }

  /**
   * The PostUp decision: a disabled configuration removes the table (always named
   * `wg_acl_v4`) and the setup script and hooks nothing; otherwise the setup script is
   * written with the default-deny body when no rule is enabled, the full body otherwise,
   * and the hook runs it.
   */
  function PostUpPlan(config: AclConfig, enabledRules: seq<AclRule>, interfaceId: string): (p: HookPlan)
    ensures !config.enabled ==> p == HookPlan([TeardownCommand], Unlink(AclSetupScript), "")
    ensures config.enabled ==> p.commands == [] && p.file.WriteFile? && p.file.path == p.hookCommand == AclSetupScript
    ensures config.enabled && enabledRules == [] ==> p.file.contents == Shebang + DefaultDenyScript(config, interfaceId)
    ensures config.enabled && enabledRules != [] ==> p.file.contents == Shebang + NftablesScript(config, enabledRules, interfaceId)
  {
    if !config.enabled then HookPlan([TeardownCommand], Unlink(AclSetupScript), "")
    else
      var body := if enabledRules == [] then DefaultDenyScript(config, interfaceId)
                  else NftablesScript(config, enabledRules, interfaceId);
      HookPlan([], WriteFile(AclSetupScript, Shebang + body), AclSetupScript)
  }

  /** The PreDown decision: remove the cleanup script when disabled, else write one that drops `wg_acl_v4`. */
  function PreDownPlan(config: AclConfig): (p: HookPlan)
    ensures !config.enabled ==> p == HookPlan([], Unlink(AclCleanupScript), "")
    ensures config.enabled ==> p == HookPlan([], WriteFile(AclCleanupScript, Shebang + TeardownCommand), AclCleanupScript)
  {
    if !config.enabled then HookPlan([], Unlink(AclCleanupScript), "")
    else HookPlan([], WriteFile(AclCleanupScript, Shebang + TeardownCommand), AclCleanupScript)
  }

  /** A written setup script passes the gate's `nft` check. */
  lemma SetupScriptMentionsNft(config: AclConfig, enabledRules: seq<AclRule>, interfaceId: string)
    requires config.enabled
    ensures PostUpPlan(config, enabledRules, interfaceId).file.WriteFile?
    ensures ValidateScript(PostUpPlan(config, enabledRules, interfaceId).file.contents) != Failure("Invalid script: missing nft commands")
  {
    var g := Grouped(enabledRules);
    BodiesStartWithDelete(config, PortSetsOf(g.members, g.order), RuleLinesOf(g.members, g.order, interfaceId), interfaceId);
  }

  /**
   * The teardown commands name `wg_acl_v4` whatever the configured table is: for any other
   * table name they do not delete the table the setup body creates.
   */
  lemma TeardownIgnoresTableName(config: AclConfig, enabledRules: seq<AclRule>, interfaceId: string)
    requires config.filterTableName != "wg_acl_v4"
    ensures DeleteTableCommand(config.filterTableName) != DeleteTableCommand("wg_acl_v4")
    ensures !config.enabled ==> PostUpPlan(config, enabledRules, interfaceId).commands == [DeleteTableCommand("wg_acl_v4")]
    ensures config.enabled ==> PreDownPlan(config).file.contents == Shebang + DeleteTableCommand("wg_acl_v4")
  {
    if DeleteTableCommand(config.filterTableName) == DeleteTableCommand("wg_acl_v4") {
      CancelAround("nft delete table ip ", config.filterTableName, "wg_acl_v4", " 2>/dev/null || true");
    }
  }

  /** The PostUp hook as the interface runs it: read the configuration (creating it if missing) and the enabled rules, then decide. */
  method GeneratePostUpScript(store: AclStore, interfaceId: string) returns (plan: HookPlan)
    requires store.Valid()
    modifies store
    ensures store.Valid()
    ensures interfaceId in store.configs
    ensures plan == PostUpPlan(store.configs[interfaceId], EnabledOf(Listing(store.rules, store.nextId, interfaceId, false)), interfaceId)
    ensures store.rules == old(store.rules) && store.nextId == old(store.nextId)
    ensures interfaceId in old(store.configs) ==> store.configs == old(store.configs)
    ensures interfaceId !in old(store.configs) ==> store.configs == old(store.configs)[interfaceId := LazyConfig(interfaceId)]
  {
    var config := store.GetConfig(interfaceId);
    if !config.enabled {
      plan := HookPlan([TeardownCommand], Unlink(AclSetupScript), "");
      return;
    }
    var rules := store.GetEnabledRules(interfaceId);
    var scriptContent: string;
    if |rules| == 0 {
      scriptContent := DefaultDenyScript(config, interfaceId);
    } else {
      scriptContent := GenerateNftablesScript(config, rules, interfaceId);
    }
    plan := HookPlan([], WriteFile(AclSetupScript, Shebang + scriptContent), AclSetupScript);
  }

  /** The PreDown hook as the interface runs it. */
  method GeneratePreDownScript(store: AclStore, interfaceId: string) returns (plan: HookPlan)
    requires store.Valid()
    modifies store
    ensures store.Valid()
    ensures interfaceId in store.configs
    ensures plan == PreDownPlan(store.configs[interfaceId])
    ensures store.rules == old(store.rules) && store.nextId == old(store.nextId)
    ensures interfaceId in old(store.configs) ==> store.configs == old(store.configs)
    ensures interfaceId !in old(store.configs) ==> store.configs == old(store.configs)[interfaceId := LazyConfig(interfaceId)]
  {
    var config := store.GetConfig(interfaceId);
    if !config.enabled {
      plan := HookPlan([], Unlink(AclCleanupScript), "");
      return;
    }
    plan := HookPlan([], WriteFile(AclCleanupScript, Shebang + TeardownCommand), AclCleanupScript);
  }
}
