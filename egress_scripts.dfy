/**
 * The egress script compiler: the setup script (validation of each exit node, then the
 * `wg_egress_nat` table fed to `nft -f -`), the cleanup script, and the hook decisions
 * that remove both files when no client is routed.
 */
module EgressScripts {
  import opened Strings
  import opened Numerals
  import opened OrderedGroups
  import opened Hooks
  import opened EgressDevices

  const EgressSetupScript := "/etc/wireguard/egress-setup.sh"
  const EgressCleanupScript := "/etc/wireguard/egress-cleanup.sh"

  /** Appended to a command whose failure the script ignores. */
  const Quiet := " 2>/dev/null || true"

  /** Drops the NAT table; both scripts start their table work with it. */
  const EgressTableDelete := "nft delete table ip wg_egress_nat" + Quiet + "\n\n"

  // ---------------------------------------------------------------------------------
  // Setup script

  const ArrayDeclarations :=
    "# Validate exit nodes\n"
    + "declare -A DEVICE_FWMARK\n"
    + "declare -A DEVICE_TABLE\n"
    + "declare -A DEVICE_IPS\n"
    + "DEFAULT_DEVICE_IPS=\"\"\n\n"

  /** `clientIps.join(' ')`. */
  function IpList(ips: seq<string>): string {
    Join(ips, " ")
  }

  /** The `default` group only records its addresses; it is routed by the host's default route. */
  function DefaultBlock(ips: seq<string>): string {
    "# Configure default device routing\n"
    + "echo \"Setting up default egress for " + Decimal(|ips|) + " client(s)\"\n"
    + "DEFAULT_DEVICE_IPS=\"" + IpList(ips) + "\"\n\n"
  }

  /** Opens the guard: the device is up and has an address. */
  function ProbeLine(device: string): string {
    "if wg show " + device + " &>/dev/null && ip addr show " + device + " | grep -q 'inet '; then\n"
  }

  function ActiveEntries(g: DeviceGroup): string {
    "  echo \"Exit node " + g.device + " is active\"\n"
    + "  DEVICE_FWMARK[\"" + g.device + "\"]=\"" + g.fwmark + "\"\n"
    + "  DEVICE_TABLE[\"" + g.device + "\"]=\"" + IntToString(g.rtTable) + "\"\n"
    + "  DEVICE_IPS[\"" + g.device + "\"]=\"" + IpList(g.clientIps) + "\"\n"
  }

  /** `fwmark <m> table <t>`: the policy rule both scripts name. */
  function RuleSelector(g: DeviceGroup): string {
    "fwmark " + g.fwmark + " table " + IntToString(g.rtTable)
  }

  function RuleAddLine(g: DeviceGroup): string {
    "  ip rule add " + RuleSelector(g) + Quiet + "\n"
  }

  function RouteReplaceLine(g: DeviceGroup): string {
    "  ip route replace default dev " + g.device + " table " + IntToString(g.rtTable) + "\n"
  }

  function UnavailableBranch(device: string): string {
    "else\n"
    + "  echo \"WARNING: Exit node " + device + " is not available. Skipping.\" >&2\n"
    + "fi\n\n"
  }

  /** An exit node's routing, applied only when the guard finds it up with an address. */
  function ExitNodeBlock(g: DeviceGroup): string {
    "# Check " + g.device + "\n" + ProbeLine(g.device) + ActiveEntries(g) + RuleAddLine(g) + RouteReplaceLine(g) + UnavailableBranch(g.device)
  }

  /** What one device group adds to the setup script: nothing when it has no addresses. */
  function DeviceBlock(g: DeviceGroup): string {
    if |g.clientIps| == 0 then ""
    else if g.device == DefaultDevice then DefaultBlock(g.clientIps)
    else ExitNodeBlock(g)
  }

  /** The loop's contribution: the groups' blocks in group order. */
  function DeviceBlocks(gs: seq<DeviceGroup>): string {
    ConcatMap(gs, DeviceBlock)
  }

  /** Stops the script when no exit node validated and no client uses `default`. */
  const EarlyExitGuard :=
    "if [ ${#DEVICE_FWMARK[@]} -eq 0 ] && [ -z \"$DEFAULT_DEVICE_IPS\" ]; then\n"
    + "  echo \"WARNING: No egress routing configured.\" >&2\n"
    + "  exit 0\n"
    + "fi\n\n"

  const NatHeading := "# Generate nftables configuration\n"

  const NftLineCount := 80

  /** Line `k` of the shell block that prints the `wg_egress_nat` ruleset, with its newline. */
  function NftLine(k: int, interfaceId: string, wgSubnet: string): string {
    match k
    case 0 => "{\n"
    case 1 => "  echo \"table ip wg_egress_nat {\"\n"
    case 2 => "  \n"
    case 3 => "  # Generate IP sets for each device\n"
    case 4 => "  \n"
    case 5 => "  # Default device IP set (if configured)\n"
    case 6 => "  if [ -n \"$DEFAULT_DEVICE_IPS\" ]; then\n"
    case 7 => "    ips_formatted=$(echo \"$DEFAULT_DEVICE_IPS\" | sed 's/ /, /g')\n"
    case 8 => "    echo \"  set clients_default { type ipv4_addr; elements = { ${ips_formatted} } }\"\n"
    case 9 => "  fi\n"
    case 10 => "  \n"
    case 11 => "  # Custom exit node IP sets\n"
    case 12 => "  for device in \"${!DEVICE_IPS[@]}\"; do\n"
    case 13 => "    setname=$(echo \"clients_${device}\" | sed 's/[^a-zA-Z0-9]/_/g')\n"
    case 14 => "    ips=${DEVICE_IPS[$device]}\n"
    case 15 => "    ips_formatted=$(echo \"$ips\" | sed 's/ /, /g')\n"
    case 16 => "    echo \"  set ${setname} { type ipv4_addr; elements = { ${ips_formatted} } }\"\n"
    case 17 => "  done\n"
    case 18 => "  echo \"\"\n"
    case 19 => "  \n"
    case 20 => "  # Prerouting chain - mark packets for policy routing\n"
    case 21 => "  echo \"  chain prerouting {\"\n"
    case 22 => "  echo \"    type filter hook prerouting priority -149;\"\n"
    case 23 => "  \n"
    case 24 => "  # Custom exit nodes get marked for policy routing\n"
    case 25 => "  for device in \"${!DEVICE_FWMARK[@]}\"; do\n"
    case 26 => "    setname=$(echo \"clients_${device}\" | sed 's/[^a-zA-Z0-9]/_/g')\n"
    case 27 => "    fwmark=${DEVICE_FWMARK[$device]}\n"
    case 28 => "    echo \"    iifname \\\"" + interfaceId + "\\\" ip saddr @${setname} ip daddr != " + wgSubnet + " meta mark set ${fwmark}\"\n"
    case 29 => "  done\n"
    case 30 => "  \n"
    case 31 => "  # Default device clients - no marking needed, use normal routing\n"
    case 32 => "  echo \"  }\"\n"
    case 33 => "  echo \"\"\n"
    case 34 => "  \n"
    case 35 => "  # Forward chain\n"
    case 36 => "  echo \"  chain forward {\"\n"
    case 37 => "  echo \"    type filter hook forward priority 1;\"\n"
    case 38 => "  \n"
    case 39 => "  # Allow forwarding for custom exit nodes\n"
    case 40 => "  for device in \"${!DEVICE_IPS[@]}\"; do\n"
    case 41 => "    setname=$(echo \"clients_${device}\" | sed 's/[^a-zA-Z0-9]/_/g')\n"
    case 42 => "    echo \"    iifname \\\"" + interfaceId + "\\\" oifname \\\"${device}\\\" ip saddr @${setname} accept\"\n"
    case 43 => "  done\n"
    case 44 => "  \n"
    case 45 => "  # Allow forwarding for default device (to default interface)\n"
    case 46 => "  if [ -n \"$DEFAULT_DEVICE_IPS\" ]; then\n"
    case 47 => "    # Get the default route interface\n"
    case 48 => "    DEFAULT_IFACE=$(ip route show default | awk '/default/ {print $5}' | head -1)\n"
    case 49 => "    if [ -n \"$DEFAULT_IFACE\" ]; then\n"
    case 50 => "      echo \"    # Forward default egress clients via ${DEFAULT_IFACE}\"\n"
    case 51 => "      echo \"    iifname \\\"" + interfaceId + "\\\" oifname \\\"${DEFAULT_IFACE}\\\" ip saddr @clients_default accept\"\n"
    case 52 => "    fi\n"
    case 53 => "  fi\n"
    case 54 => "  \n"
    case 55 => "  echo \"  }\"\n"
    case 56 => "  echo \"\"\n"
    case 57 => "  \n"
    case 58 => "  # Postrouting chain for NAT\n"
    case 59 => "  echo \"  chain postrouting {\"\n"
    case 60 => "  echo \"    type nat hook postrouting priority 101;\"\n"
    case 61 => "  \n"
    case 62 => "  # NAT for custom exit nodes\n"
    case 63 => "  for device in \"${!DEVICE_IPS[@]}\"; do\n"
    case 64 => "    echo \"    oifname \\\"${device}\\\" masquerade\"\n"
    case 65 => "  done\n"
    case 66 => "  \n"
    case 67 => "  # NAT for default device\n"
    case 68 => "  if [ -n \"$DEFAULT_DEVICE_IPS\" ]; then\n"
    case 69 => "    DEFAULT_IFACE=$(ip route show default | awk '/default/ {print $5}' | head -1)\n"
    case 70 => "    if [ -n \"$DEFAULT_IFACE\" ]; then\n"
    case 71 => "      echo \"    # NAT for default egress via ${DEFAULT_IFACE}\"\n"
    case 72 => "      echo \"    oifname \\\"${DEFAULT_IFACE}\\\" ip saddr @clients_default masquerade\"\n"
    case 73 => "    fi\n"
    case 74 => "  fi\n"
    case 75 => "  \n"
    case 76 => "  echo \"  }\"\n"
    case 77 => "  \n"
    case 78 => "  echo \"}\"\n"
    case _ => "} | nft -f -\n"
  }

  /** The shell block that prints the `wg_egress_nat` ruleset into `nft -f -`. */
  function NftInput(interfaceId: string, wgSubnet: string): string {
    ConcatMap(seq(NftLineCount, k => k), k => NftLine(k, interfaceId, wgSubnet))
  }

  function NatRuleset(interfaceId: string, wgSubnet: string): string {
    NatHeading + EgressTableDelete + NftInput(interfaceId, wgSubnet)
  }

  /** The setup text around whatever follows the early-exit guard. */
  function SetupText(gs: seq<DeviceGroup>, tail: string): string {
    ArrayDeclarations + DeviceBlocks(gs) + EarlyExitGuard + tail
  }

  /** The whole setup text, before the shebang is put in front. */
  function EgressScript(interfaceId: string, wgSubnet: string, gs: seq<DeviceGroup>): string {
    SetupText(gs, NatRuleset(interfaceId, wgSubnet))
  }

  /** The device loop, appending each group's block unless the group has no addresses. */
  method AppendDeviceBlocks(script0: string, deviceGroups: seq<DeviceGroup>) returns (script: string)
    ensures script == script0 + DeviceBlocks(deviceGroups)
  {
    script := script0;
    var i := 0;
    while i < |deviceGroups|
      invariant 0 <= i <= |deviceGroups|
      invariant script == script0 + DeviceBlocks(deviceGroups[..i])
    {
      var group := deviceGroups[i];
      DeviceLoopStep(script0, deviceGroups, i);
      if |group.clientIps| == 0 {
        i := i + 1;
        continue;
      }
      script := script + DeviceBlock(group);
      i := i + 1;
    }
    assert deviceGroups[..|deviceGroups|] == deviceGroups;
  }

  lemma DeviceLoopStep(script0: string, gs: seq<DeviceGroup>, i: int)
    requires 0 <= i < |gs|
    ensures script0 + DeviceBlocks(gs[..i]) + DeviceBlock(gs[i]) == script0 + DeviceBlocks(gs[..i + 1])
    ensures DeviceBlock(gs[i]) == "" ==> script0 + DeviceBlocks(gs[..i]) == script0 + DeviceBlocks(gs[..i + 1])
  {
    var done, g := DeviceBlocks(gs[..i]), gs[i];
    assert gs[..i + 1] == gs[..i] + [g];
    ConcatMapSnoc(gs[..i], g, DeviceBlock);
    AppendAssoc(script0, done, DeviceBlock(g));
    AppendEmpty(done);
  }

  /** The compiler: declarations, the device blocks, the guard, then the NAT ruleset. */
  method GenerateNftablesEgressScript(interfaceId: string, wgSubnet: string, deviceGroups: seq<DeviceGroup>)
    returns (script: string)
    ensures script == EgressScript(interfaceId, wgSubnet, deviceGroups)
  {
    script := ArrayDeclarations;
    script := AppendDeviceBlocks(script, deviceGroups);
    script := script + EarlyExitGuard;
    script := script + NatRuleset(interfaceId, wgSubnet);
  }

  /** The early-exit guard comes before the first command that touches the NAT table. */
  lemma GuardBeforeNatTable(interfaceId: string, wgSubnet: string, gs: seq<DeviceGroup>)
    ensures exists p, q :: EgressScript(interfaceId, wgSubnet, gs) == p + EarlyExitGuard + NatHeading + EgressTableDelete + q
  {
    var p := ArrayDeclarations + DeviceBlocks(gs);
    var q := NftInput(interfaceId, wgSubnet);
    GuardThenRuleset(p, EarlyExitGuard, NatHeading, EgressTableDelete, q);
    assert EgressScript(interfaceId, wgSubnet, gs) == p + EarlyExitGuard + NatHeading + EgressTableDelete + q;
  }

  lemma GuardThenRuleset(p: string, e: string, h: string, d: string, q: string)
    ensures p + e + (h + d + q) == p + e + h + d + q
  {
  }

  /** Each group's block is in the setup text, whatever follows the guard. */
  lemma BlockInSetup(gs: seq<DeviceGroup>, tail: string, i: int)
    requires 0 <= i < |gs|
    ensures Contains(SetupText(gs, tail), DeviceBlock(gs[i]))
  {
    ConcatMapContains(gs, DeviceBlock, i);
    ContainsExtend(DeviceBlocks(gs), DeviceBlock(gs[i]), ArrayDeclarations, EarlyExitGuard + tail);
    AppendAssoc(ArrayDeclarations + DeviceBlocks(gs), EarlyExitGuard, tail);
  }

  lemma GuardedPart(a: string, p: string, e: string, r: string, rr: string, u: string)
    ensures Contains(a + p + e + r + rr + u, p + e + r + rr)
  {
    assert a + p + e + r + rr + u == a + (p + e + r + rr) + u;
    ContainsInfix(a, p + e + r + rr, u);
  }

  /**
   * A non-default group with addresses adds its policy rule and its default route, both
   * inside the branch of the guard that finds the exit node up with an address.
   */
  lemma SetupRoutesExitNode(gs: seq<DeviceGroup>, tail: string, i: int)
    requires 0 <= i < |gs| && gs[i].device != DefaultDevice && |gs[i].clientIps| > 0
    ensures Contains(SetupText(gs, tail), ProbeLine(gs[i].device) + ActiveEntries(gs[i]) + RuleAddLine(gs[i]) + RouteReplaceLine(gs[i]))
    ensures Contains(SetupText(gs, tail), RuleAddLine(gs[i]))
  {
    var g := gs[i];
    var guarded := ProbeLine(g.device) + ActiveEntries(g) + RuleAddLine(g) + RouteReplaceLine(g);
    BlockInSetup(gs, tail, i);
    assert DeviceBlock(g) == ExitNodeBlock(g);
    GuardedPart("# Check " + g.device + "\n", ProbeLine(g.device), ActiveEntries(g), RuleAddLine(g), RouteReplaceLine(g), UnavailableBranch(g.device));
    ContainsTransitive(SetupText(gs, tail), DeviceBlock(g), guarded);
    ContainsInfix(ProbeLine(g.device) + ActiveEntries(g), RuleAddLine(g), RouteReplaceLine(g));
    ContainsTransitive(SetupText(gs, tail), guarded, RuleAddLine(g));
  }

  lemma TailPart(a: string, x: string, y: string, z: string)
    ensures Contains(a + x + y + z, x + y + z)
  {
    assert a + x + y + z == a + (x + y + z) + "";
    ContainsInfix(a, x + y + z, "");
  }

  /** The `default` group with addresses records them, space-separated, and sets no rule. */
  lemma SetupRecordsDefaultIps(gs: seq<DeviceGroup>, tail: string, i: int)
    requires 0 <= i < |gs| && gs[i].device == DefaultDevice && |gs[i].clientIps| > 0
    ensures DeviceBlock(gs[i]) == DefaultBlock(gs[i].clientIps)
    ensures Contains(SetupText(gs, tail), "DEFAULT_DEVICE_IPS=\"" + Join(gs[i].clientIps, " ") + "\"\n\n")
  {
    var ips := gs[i].clientIps;
    var a := "# Configure default device routing\n" + "echo \"Setting up default egress for " + Decimal(|ips|) + " client(s)\"\n";
    var line := "DEFAULT_DEVICE_IPS=\"" + IpList(ips) + "\"\n\n";
    BlockInSetup(gs, tail, i);
    TailPart(a, "DEFAULT_DEVICE_IPS=\"", IpList(ips), "\"\n\n");
    ContainsTransitive(SetupText(gs, tail), DeviceBlock(gs[i]), line);
  }

  /** A group without addresses leaves the setup text as it was. */
  lemma EmptyGroupSilent(gs: seq<DeviceGroup>, g: DeviceGroup, tail: string)
    requires |g.clientIps| == 0
    ensures SetupText(gs + [g], tail) == SetupText(gs, tail)
  {
    ConcatMapSnoc(gs, g, DeviceBlock);
    AppendEmpty(DeviceBlocks(gs));
  }

  // ---------------------------------------------------------------------------------
  // Cleanup script

  function RuleDelLine(g: DeviceGroup): string {
    "ip rule del " + RuleSelector(g) + Quiet + "\n"
  }

  function RouteFlushLine(g: DeviceGroup): string {
    "ip route flush table " + IntToString(g.rtTable) + Quiet + "\n"
  }

  /** What one group adds to the cleanup script. */
  function CleanupPair(g: DeviceGroup): string {
    RuleDelLine(g) + RouteFlushLine(g)
  }

  function CleanupScript(gs: seq<DeviceGroup>): string {
    Shebang + EgressTableDelete + ConcatMap(gs, CleanupPair)
  }

  /** The cleanup loop: for each group, drop its rule and flush its table. */
  method AppendCleanupLines(script0: string, deviceGroups: seq<DeviceGroup>) returns (script: string)
    ensures script == script0 + ConcatMap(deviceGroups, CleanupPair)
  {
    script := script0;
    var i := 0;
    while i < |deviceGroups|
      invariant 0 <= i <= |deviceGroups|
      invariant script == script0 + ConcatMap(deviceGroups[..i], CleanupPair)
    {
      var group := deviceGroups[i];
      CleanupLoopStep(script0, deviceGroups, i);
      script := script + RuleDelLine(group);
      script := script + RouteFlushLine(group);
      i := i + 1;
    }
    assert deviceGroups[..|deviceGroups|] == deviceGroups;
  }

  lemma CleanupLoopStep(script0: string, gs: seq<DeviceGroup>, i: int)
    requires 0 <= i < |gs|
    ensures script0 + ConcatMap(gs[..i], CleanupPair) + RuleDelLine(gs[i]) + RouteFlushLine(gs[i])
            == script0 + ConcatMap(gs[..i + 1], CleanupPair)
  {
    var done, g := ConcatMap(gs[..i], CleanupPair), gs[i];
    assert gs[..i + 1] == gs[..i] + [g];
    ConcatMapSnoc(gs[..i], g, CleanupPair);
    AppendAssoc(script0 + done, RuleDelLine(g), RouteFlushLine(g));
    AppendAssoc(script0, done, CleanupPair(g));
  }

  /** The cleanup script: the shebang, the table deletion, then the per-group lines. */
  method GenerateCleanupScript(deviceGroups: seq<DeviceGroup>) returns (scriptContent: string)
    ensures scriptContent == CleanupScript(deviceGroups)
  {
    scriptContent := Shebang;
    scriptContent := scriptContent + EgressTableDelete;
    scriptContent := AppendCleanupLines(scriptContent, deviceGroups);
  }

  /** The cleanup deletes the very rule the setup adds: both name the same selector. */
  lemma CleanupMirrorsSetup(g: DeviceGroup)
    ensures exists x :: RuleAddLine(g) == "  ip rule add " + x + Quiet + "\n" &&
                        RuleDelLine(g) == "ip rule del " + x + Quiet + "\n" &&
                        Contains(x, g.fwmark)
  {
    var x := RuleSelector(g);
    ContainsInfix("fwmark ", g.fwmark, " table " + IntToString(g.rtTable));
    AppendAssoc("fwmark " + g.fwmark, " table ", IntToString(g.rtTable));
  }

  lemma NoNewline(s: string)
    requires '\n' !in s
    ensures CountChar(s, '\n') == 0
  {
    CountCharAbsent(s, '\n');
  }

  lemma OneLine(s: string)
    requires '\n' !in s
    ensures CountChar(s + "\n", '\n') == 1
  {
    CountCharAppend(s, "\n", '\n');
    NoNewline(s);
    assert "\n"[1..] == "";
  }

  lemma CleanupPairCount(g: DeviceGroup)
    requires '\n' !in g.fwmark
    ensures CountChar(CleanupPair(g), '\n') == 2
  {
    var rt := IntToString(g.rtTable);
    assert '\n' !in RuleSelector(g);
    OneLine("ip rule del " + RuleSelector(g) + Quiet);
    OneLine("ip route flush table " + rt + Quiet);
    CountCharAppend(RuleDelLine(g), RouteFlushLine(g), '\n');
  }

  /** Exactly two lines per group: the per-group text has two newlines for each group. */
  lemma {:induction false} CleanupLineCount(gs: seq<DeviceGroup>)
    requires forall i :: 0 <= i < |gs| ==> '\n' !in gs[i].fwmark
    ensures CountChar(ConcatMap(gs, CleanupPair), '\n') == 2 * |gs|
    decreases |gs|
  {
    if |gs| > 0 {
      var init, last := gs[..|gs| - 1], gs[|gs| - 1];
      assert forall i :: 0 <= i < |init| ==> init[i] == gs[i];
      CleanupLineCount(init);
      CleanupPairCount(last);
      assert ConcatMap(gs, CleanupPair) == ConcatMap(init, CleanupPair) + CleanupPair(last);
      CountCharAppend(ConcatMap(init, CleanupPair), CleanupPair(last), '\n');
    }
  }

  // ---------------------------------------------------------------------------------
  // Hook decisions

  /** `clientGroups.get(device) || []`. */
  function IpsOf(clientGroups: Groups<string>, device: string): seq<string> {
    if device in clientGroups.members then clientGroups.members[device] else []
  }

  /** The device groups of the setup: assigned parameters, addresses filled in from the grouping. */
  function DeviceGroupsOf(clientGroups: Groups<string>): (gs: seq<DeviceGroup>)
    ensures |gs| == |clientGroups.order|
  {
    var params := AssignDeviceParams(clientGroups.order);
    seq(|params|, i requires 0 <= i < |params| => params[i].(clientIps := IpsOf(clientGroups, params[i].device)))
  }

  /** The fill loop, updating the device groups in place. */
  method FillClientIps(deviceGroups: array<DeviceGroup>, clientGroups: Groups<string>)
    modifies deviceGroups
    ensures forall i :: 0 <= i < deviceGroups.Length ==>
              deviceGroups[i] == old(deviceGroups[i]).(clientIps := IpsOf(clientGroups, old(deviceGroups[i]).device))
  {
    var i := 0;
    while i < deviceGroups.Length
      invariant 0 <= i <= deviceGroups.Length
      invariant forall k :: 0 <= k < i ==>
                  deviceGroups[k] == old(deviceGroups[k]).(clientIps := IpsOf(clientGroups, old(deviceGroups[k]).device))
      invariant forall k :: i <= k < deviceGroups.Length ==> deviceGroups[k] == old(deviceGroups[k])
    {
      var group := deviceGroups[i];
      deviceGroups[i] := group.(clientIps := IpsOf(clientGroups, group.device));
      i := i + 1;
    }
  }

  /** Assign the parameters into a fresh array of groups and fill in their addresses. */
  method BuildDeviceGroups(clientGroups: Groups<string>) returns (groups: seq<DeviceGroup>)
    ensures groups == DeviceGroupsOf(clientGroups)
  {
    var params := AssignDeviceParams(clientGroups.order);
    var deviceGroups := new DeviceGroup[|params|](i requires 0 <= i < |params| => params[i]);
    FillClientIps(deviceGroups, clientGroups);
    groups := deviceGroups[..];
  }

  /** A setup is written exactly when some device group exists. */
  predicate HasGroups(clients: seq<Client>) {
    |ClientGroups(clients).order| > 0
  }

  /**
   * The PostUp decision: with no routed client the setup file is removed and no hook is
   * set; otherwise the exit nodes are brought up, the setup script is written and the
   * hook runs it.
   */
  function EgressPostUpPlan(clients: seq<Client>, interfaceId: string, wgSubnet: string, isUp: string -> bool): HookPlan {
    var clientGroups := ClientGroups(clients);
    if |clientGroups.order| == 0 then HookPlan([], Unlink(EgressSetupScript), "")
    else
      var script := EgressScript(interfaceId, wgSubnet, DeviceGroupsOf(clientGroups));
      HookPlan(BringUpCommands(clientGroups.order, isUp), WriteFile(EgressSetupScript, Shebang + script), EgressSetupScript)
  }

  /** The PreDown decision: the cleanup file is removed, or written for the assigned parameters. */
  function EgressPreDownPlan(clients: seq<Client>): HookPlan {
    var clientGroups := ClientGroups(clients);
    if |clientGroups.order| == 0 then HookPlan([], Unlink(EgressCleanupScript), "")
    else HookPlan([], WriteFile(EgressCleanupScript, CleanupScript(AssignDeviceParams(clientGroups.order))), EgressCleanupScript)
  }

  method GenerateEgressPostUpScript(clients: seq<Client>, interfaceId: string, wgSubnet: string, isUp: string -> bool)
    returns (plan: HookPlan)
    ensures plan == EgressPostUpPlan(clients, interfaceId, wgSubnet, isUp)
  {
    var clientGroups := GroupClientsByDevice(clients);
    if |clientGroups.order| == 0 {
      plan := HookPlan([], Unlink(EgressSetupScript), "");
      return;
    }
    var devices := clientGroups.order;
    var deviceGroups := BuildDeviceGroups(clientGroups);
    var commands := BringUpExitNodes(devices, isUp);
    var scriptContent := GenerateNftablesEgressScript(interfaceId, wgSubnet, deviceGroups);
    plan := HookPlan(commands, WriteFile(EgressSetupScript, Shebang + scriptContent), EgressSetupScript);
  }

  method GenerateEgressPreDownScript(clients: seq<Client>) returns (plan: HookPlan)
    ensures plan == EgressPreDownPlan(clients)
  {
    var clientGroups := GroupClientsByDevice(clients);
    if |clientGroups.order| == 0 {
      plan := HookPlan([], Unlink(EgressCleanupScript), "");
      return;
    }
    var deviceGroups := AssignDeviceParams(clientGroups.order);
    var scriptContent := GenerateCleanupScript(deviceGroups);
    plan := HookPlan([], WriteFile(EgressCleanupScript, scriptContent), EgressCleanupScript);
  }

  /** Some device group exists exactly when some client is routed. */
  lemma HasGroupsIff(clients: seq<Client>)
    ensures HasGroups(clients) <==> exists i :: 0 <= i < |clients| && Routed(clients[i])
  {
    GroupingMembership(clients);
    var order := ClientGroups(clients).order;
    if |order| > 0 {
      assert order[0] in order;
    }
    if exists i :: 0 <= i < |clients| && Routed(clients[i]) {
      var i :| 0 <= i < |clients| && Routed(clients[i]);
      assert DeviceOf(clients[i]) in order;
    }
  }

  /** The PostUp hook is empty, and its file removed, exactly when no client is routed. */
  lemma EgressPostUpEmptyIff(clients: seq<Client>, interfaceId: string, wgSubnet: string, isUp: string -> bool)
    ensures EgressPostUpPlan(clients, interfaceId, wgSubnet, isUp).hookCommand == "" <==>
              forall i :: 0 <= i < |clients| ==> !Routed(clients[i])
    ensures EgressPostUpPlan(clients, interfaceId, wgSubnet, isUp).hookCommand == "" ==>
              EgressPostUpPlan(clients, interfaceId, wgSubnet, isUp) == HookPlan([], Unlink(EgressSetupScript), "")
  {
    HasGroupsIff(clients);
  }

  /** The PreDown hook is empty, and its file removed, exactly when no client is routed. */
  lemma EgressPreDownEmptyIff(clients: seq<Client>)
    ensures EgressPreDownPlan(clients).hookCommand == "" <==> forall i :: 0 <= i < |clients| ==> !Routed(clients[i])
    ensures EgressPreDownPlan(clients).hookCommand == "" ==> EgressPreDownPlan(clients) == HookPlan([], Unlink(EgressCleanupScript), "")
  {
    HasGroupsIff(clients);
  }

  /** Every setup group holds exactly its device's routed addresses, so none is silent. */
  lemma SetupGroupsFilled(clients: seq<Client>, i: int)
    requires 0 <= i < |ClientGroups(clients).order|
    ensures DeviceGroupsOf(ClientGroups(clients))[i].clientIps == ClientIps(clients, ClientGroups(clients).order[i])
    ensures |DeviceGroupsOf(ClientGroups(clients))[i].clientIps| > 0
  {
    GroupingMembership(clients);
    var order := ClientGroups(clients).order;
    assert order[i] in order;
  }

  /** The setup's group at a position and the cleanup's share device, mark and table. */
  lemma SetupAndCleanupAgree(clientGroups: Groups<string>, i: int)
    requires 0 <= i < |clientGroups.order|
    ensures RuleDelLine(DeviceGroupsOf(clientGroups)[i]) == RuleDelLine(AssignDeviceParams(clientGroups.order)[i])
    ensures CleanupPair(DeviceGroupsOf(clientGroups)[i]) == CleanupPair(AssignDeviceParams(clientGroups.order)[i])
    ensures DeviceGroupsOf(clientGroups)[i].device == AssignDeviceParams(clientGroups.order)[i].device
  {
  }

  lemma ShebangKeepsRule(clients: seq<Client>, tail: string, i: int)
    requires 0 <= i < |ClientGroups(clients).order| && ClientGroups(clients).order[i] != DefaultDevice
    ensures Contains(Shebang + SetupText(DeviceGroupsOf(ClientGroups(clients)), tail), RuleAddLine(DeviceGroupsOf(ClientGroups(clients))[i]))
  {
    var gs := DeviceGroupsOf(ClientGroups(clients));
    SetupGroupsFilled(clients, i);
    SetupRoutesExitNode(gs, tail, i);
    ContainsExtend(SetupText(gs, tail), RuleAddLine(gs[i]), Shebang, "");
    AppendEmpty(Shebang + SetupText(gs, tail));
  }

  /** With a routed client, PostUp writes the setup text behind the shebang. */
  lemma PostUpWritesSetup(clients: seq<Client>, interfaceId: string, wgSubnet: string, isUp: string -> bool)
    requires |ClientGroups(clients).order| > 0
    ensures EgressPostUpPlan(clients, interfaceId, wgSubnet, isUp).file
            == WriteFile(EgressSetupScript, Shebang + SetupText(DeviceGroupsOf(ClientGroups(clients)), NatRuleset(interfaceId, wgSubnet)))
  {
  }

  /** For every routed exit node, the written setup script adds its policy rule. */
  lemma SetupAddsRule(clients: seq<Client>, interfaceId: string, wgSubnet: string, isUp: string -> bool, i: int)
    requires 0 <= i < |ClientGroups(clients).order| && ClientGroups(clients).order[i] != DefaultDevice
    ensures EgressPostUpPlan(clients, interfaceId, wgSubnet, isUp).file.WriteFile?
    ensures Contains(EgressPostUpPlan(clients, interfaceId, wgSubnet, isUp).file.contents,
                     RuleAddLine(DeviceGroupsOf(ClientGroups(clients))[i]))
  {
    ShebangKeepsRule(clients, NatRuleset(interfaceId, wgSubnet), i);
    PostUpWritesSetup(clients, interfaceId, wgSubnet, isUp);
  }

  /**
   * For every routed exit node, the written cleanup script deletes the rule the setup
   * adds and flushes the same table.
   */
  lemma CleanupUndoesSetup(clients: seq<Client>, i: int)
    requires 0 <= i < |ClientGroups(clients).order|
    ensures EgressPreDownPlan(clients).file.WriteFile?
    ensures Contains(EgressPreDownPlan(clients).file.contents, CleanupPair(DeviceGroupsOf(ClientGroups(clients))[i]))
  {
    var cg := ClientGroups(clients);
    var dg := AssignDeviceParams(cg.order);
    SetupAndCleanupAgree(cg, i);
    ConcatMapContains(dg, CleanupPair, i);
    ContainsExtend(ConcatMap(dg, CleanupPair), CleanupPair(dg[i]), Shebang + EgressTableDelete, "");
    AppendEmpty(CleanupScript(dg));
  }
}
