/**
 * The egress planner's view of clients and exit nodes: which clients are routed through
 * which device, the firewall mark and routing table each device is given, which exit
 * node configurations exist and are active, which ones are brought up, and the
 * reconciliation that turns egress off for clients whose exit node has disappeared.
 *
 * Host checks (`wg show`, `ip addr show`, the directory listing, a database update that
 * may fail) are parameters; commands are returned rather than run.
 */
module EgressDevices {
  import opened Wrappers
  import opened Strings
  import opened Numerals
  import opened OrderedGroups

  const ExitNodesDir := "/etc/wireguard/exit_nodes"

  /** The group name of clients that leave through the server's own default route. */
  const DefaultDevice := "default"

  const BaseFwmark := 0x10
  const BaseRtTable := 200

  /** The client columns the reconciliation copies into its update unchanged. */
  datatype ClientSettings = ClientSettings(
    expiresAt: Option<string>,
    ipv6Address: string,
    preUp: string,
    postUp: string,
    preDown: string,
    postDown: string,
    allowedIps: seq<string>,
    serverAllowedIps: seq<string>,
    mtu: int,
    jC: int,
    jMin: int,
    jMax: int,
    i1: Option<string>,
    i2: Option<string>,
    i3: Option<string>,
    i4: Option<string>,
    i5: Option<string>,
    persistentKeepalive: int,
    serverEndpoint: Option<string>,
    dns: seq<string>)

  /** A client row; `egressDevice` is nullable. */
  datatype Client = Client(
    id: int,
    name: string,
    enabled: bool,
    ipv4Address: string,
    egressEnabled: bool,
    egressDevice: Option<string>,
    settings: ClientSettings)

  // ---------------------------------------------------------------------------------
  // Grouping clients by device

  /** Only enabled clients with egress turned on are routed. */
  predicate Routed(c: Client) {
    c.enabled && c.egressEnabled
  }

  /** `client.egressDevice || 'default'`: null and the empty name fall back to `default`. */
  function DeviceOf(c: Client): (d: string)
    ensures d != ""
  {
    if c.egressDevice.Some? && c.egressDevice.value != "" then c.egressDevice.value else DefaultDevice
  }

  /** The (device, address) pairs the grouping loop pushes, in client order. */
  function ClientPairs(clients: seq<Client>): seq<(string, string)>
    decreases |clients|
  {
    if |clients| == 0 then []
    else
      var c := clients[|clients| - 1];
      ClientPairs(clients[..|clients| - 1]) + (if Routed(c) then [(DeviceOf(c), c.ipv4Address)] else [])
  }

  /** The grouping result: device names in first-appearance order, each with its addresses. */
  function ClientGroups(clients: seq<Client>): Groups<string> {
    Build(ClientPairs(clients))
  }

  /** Reference definition: the addresses of the routed clients of `device`, in client order. */
  function ClientIps(clients: seq<Client>, device: string): seq<string>
    decreases |clients|
  {
    if |clients| == 0 then []
    else
      var c := clients[|clients| - 1];
      ClientIps(clients[..|clients| - 1], device) + (if Routed(c) && DeviceOf(c) == device then [c.ipv4Address] else [])
  }

  function RoutedCount(clients: seq<Client>): nat
    decreases |clients|
  {
    if |clients| == 0 then 0
    else RoutedCount(clients[..|clients| - 1]) + (if Routed(clients[|clients| - 1]) then 1 else 0)
  }

  /** The grouping loop: get-or-empty, push the address, set the list back. */
  method GroupClientsByDevice(clients: seq<Client>) returns (groups: Groups<string>)
    ensures groups == ClientGroups(clients)
  {
    groups := Empty();
    var i := 0;
    while i < |clients|
      invariant 0 <= i <= |clients|
      invariant groups == Build(ClientPairs(clients[..i]))
    {
      var client := clients[i];
      assert clients[..i + 1][..i] == clients[..i];
      assert clients[..i + 1][i] == client;
      if !client.enabled || !client.egressEnabled {
        assert ClientPairs(clients[..i + 1]) == ClientPairs(clients[..i]) + [];
        assert ClientPairs(clients[..i]) + [] == ClientPairs(clients[..i]);
        i := i + 1;
        continue;
      }
      var device := if client.egressDevice.Some? && client.egressDevice.value != "" then client.egressDevice.value else DefaultDevice;
      var clientIps := if device in groups.members then groups.members[device] else [];
      clientIps := clientIps + [client.ipv4Address];
      var order := if device in groups.members then groups.order else groups.order + [device];
      groups := Groups(order, groups.members[device := clientIps]);
      var ps := ClientPairs(clients[..i]);
      assert ClientPairs(clients[..i + 1]) == ps + [(device, client.ipv4Address)];
      assert (ps + [(device, client.ipv4Address)])[..|ps|] == ps;
      i := i + 1;
    }
    assert clients[..|clients|] == clients;
  }

  lemma {:induction false} ClientPairsValues(clients: seq<Client>, device: string)
    ensures ValuesFor(ClientPairs(clients), device) == ClientIps(clients, device)
    decreases |clients|
  {
    if |clients| > 0 {
      var init := clients[..|clients| - 1];
      var c := clients[|clients| - 1];
      ClientPairsValues(init, device);
      var ps := ClientPairs(init);
      if Routed(c) {
        var qs := ps + [(DeviceOf(c), c.ipv4Address)];
        assert qs[..|qs| - 1] == ps;
        assert ClientPairs(clients) == qs;
      } else {
        assert ClientPairs(clients) == ps + [];
        assert ps + [] == ps;
        assert ClientIps(clients, device) == ClientIps(init, device) + [];
        assert ClientIps(init, device) + [] == ClientIps(init, device);
      }
    }
  }

  lemma {:induction false} ClientPairsCount(clients: seq<Client>)
    ensures |ClientPairs(clients)| == RoutedCount(clients)
    decreases |clients|
  {
    if |clients| > 0 {
      ClientPairsCount(clients[..|clients| - 1]);
    }
  }

  lemma {:induction false} ClientPairsKeys(clients: seq<Client>, device: string)
    ensures device in Keys(ClientPairs(clients)) <==>
              exists i :: 0 <= i < |clients| && Routed(clients[i]) && DeviceOf(clients[i]) == device
    decreases |clients|
  {
    if |clients| > 0 {
      var init := clients[..|clients| - 1];
      var c := clients[|clients| - 1];
      ClientPairsKeys(init, device);
      var ps := ClientPairs(init);
      var extra := if Routed(c) then [(DeviceOf(c), c.ipv4Address)] else [];
      assert ClientPairs(clients) == ps + extra;
      var ks := Keys(ps + extra);
      assert ks == Keys(ps) + Keys(extra);
      if device in ks {
        if device in Keys(ps) {
          var i :| 0 <= i < |init| && Routed(init[i]) && DeviceOf(init[i]) == device;
          assert clients[i] == init[i];
        } else {
          assert device in Keys(extra);
          assert Routed(clients[|clients| - 1]) && DeviceOf(clients[|clients| - 1]) == device;
        }
      }
      if exists i :: 0 <= i < |clients| && Routed(clients[i]) && DeviceOf(clients[i]) == device {
        var i :| 0 <= i < |clients| && Routed(clients[i]) && DeviceOf(clients[i]) == device;
        if i < |init| {
          assert init[i] == clients[i];
          assert device in Keys(ps);
        } else {
          assert Keys(extra)[0] == device;
        }
        assert device in ks;
      }
    }
  }

  /**
   * The grouping holds each device of a routed client exactly once, in order of first
   * appearance, with exactly that device's routed addresses in client order; no group is
   * empty, and the group sizes add up to the number of routed clients.
   */
  lemma GroupingMembership(clients: seq<Client>)
    ensures WellFormed(ClientGroups(clients))
    ensures forall d :: d in ClientGroups(clients).order <==> d in Keys(ClientPairs(clients))
    ensures forall d :: d in ClientGroups(clients).order <==>
              exists i :: 0 <= i < |clients| && Routed(clients[i]) && DeviceOf(clients[i]) == d
    ensures forall d :: d in ClientGroups(clients).members ==> ClientGroups(clients).members[d] == ClientIps(clients, d)
    ensures forall p, q :: 0 <= p < q < |ClientGroups(clients).order| ==>
              FirstIndex(Keys(ClientPairs(clients)), ClientGroups(clients).order[p]) <
              FirstIndex(Keys(ClientPairs(clients)), ClientGroups(clients).order[q])
    ensures SizeSum(ClientGroups(clients).order, ClientGroups(clients).members) == RoutedCount(clients)
  {
    var ps := ClientPairs(clients);
    BuildWellFormed(ps);
    BuildFirstAppearance(ps);
    BuildMembers(ps);
    BuildTotal(ps);
    ClientPairsCount(clients);
    forall d
      ensures d in ClientGroups(clients).order <==>
                exists i :: 0 <= i < |clients| && Routed(clients[i]) && DeviceOf(clients[i]) == d
    {
      ClientPairsKeys(clients, d);
    }
    forall d | d in ClientGroups(clients).members
      ensures ClientGroups(clients).members[d] == ClientIps(clients, d)
    {
      ClientPairsValues(clients, d);
    }
  }

  lemma {:induction false} ClientIpsContains(clients: seq<Client>, i: int)
    requires 0 <= i < |clients| && Routed(clients[i])
    ensures clients[i].ipv4Address in ClientIps(clients, DeviceOf(clients[i]))
    decreases |clients|
  {
    if i < |clients| - 1 {
      ClientIpsContains(clients[..|clients| - 1], i);
    }
  }

  /** A routed client's address is in the group of its device. */
  lemma RoutedClientGrouped(clients: seq<Client>, i: int)
    requires 0 <= i < |clients| && Routed(clients[i])
    ensures DeviceOf(clients[i]) in ClientGroups(clients).members
    ensures clients[i].ipv4Address in ClientGroups(clients).members[DeviceOf(clients[i])]
  {
    GroupingMembership(clients);
    ClientIpsContains(clients, i);
  }

  /** A client that is disabled, or has egress off, adds nothing to the grouping. */
  lemma {:induction false} UnroutedClientIgnored(clients: seq<Client>, c: Client)
    requires !Routed(c)
    ensures ClientGroups(clients + [c]) == ClientGroups(clients)
  {
    var s := clients + [c];
    assert s[..|s| - 1] == clients;
    assert ClientPairs(s) == ClientPairs(clients) + [];
    assert ClientPairs(clients) + [] == ClientPairs(clients);
  }

  // ---------------------------------------------------------------------------------
  // Firewall marks and routing tables

  /** A device's routing parameters; `clientIps` is filled in by the setup. */
  datatype DeviceGroup = DeviceGroup(device: string, clientIps: seq<string>, fwmark: string, rtTable: int)

  /** `0x${(0x10 + index).toString(16)}`. */
  function Fwmark(index: nat): (m: string)
    ensures '\n' !in m
  {
    var h := LowerHex(BaseFwmark + index);
    assert forall i :: 0 <= i < |h| ==> ('0' <= h[i] <= '9' || 'a' <= h[i] <= 'f');
    "0x" + h
  }

  /** The device at position `i` gets mark 0x10 + i and table 200 + i, and no addresses yet. */
  function AssignDeviceParams(devices: seq<string>): (gs: seq<DeviceGroup>)
    ensures |gs| == |devices|
    ensures forall i :: 0 <= i < |gs| ==> gs[i] == DeviceGroup(devices[i], [], Fwmark(i), BaseRtTable + i)
  {
    seq(|devices|, i requires 0 <= i < |devices| => DeviceGroup(devices[i], [], Fwmark(i), BaseRtTable + i))
  }

  /** A mark reads back, as hexadecimal after `0x`, to 16 plus the device's position. */
  lemma FwmarkParses(index: nat)
    ensures StartsWith(Fwmark(index), "0x")
    ensures FromBase(Fwmark(index)[2..], 16) == BaseFwmark + index
  {
    var h := LowerHex(BaseFwmark + index);
    assert Fwmark(index)[2..] == h;
    StartsWithConcat("0x", h);
    FromToBase(BaseFwmark + index, 16);
  }

  /** Different positions never share a mark or a table, whatever the device names are. */
  lemma DeviceParamsDistinct(devices: seq<string>, i: int, j: int)
    requires 0 <= i < |devices| && 0 <= j < |devices| && i != j
    ensures AssignDeviceParams(devices)[i].fwmark != AssignDeviceParams(devices)[j].fwmark
    ensures AssignDeviceParams(devices)[i].rtTable != AssignDeviceParams(devices)[j].rtTable
  {
    if Fwmark(i) == Fwmark(j) {
      FwmarkParses(i);
      FwmarkParses(j);
    }
  }

  /** `default` is given a mark and a table like any other device. */
  lemma DefaultDeviceAllocated(devices: seq<string>, i: int)
    requires 0 <= i < |devices| && devices[i] == DefaultDevice
    ensures AssignDeviceParams(devices)[i].fwmark == Fwmark(i)
    ensures AssignDeviceParams(devices)[i].rtTable == BaseRtTable + i
  {
  }

  // ---------------------------------------------------------------------------------
  // Exit node configurations

  /** The file `f` is a configuration and lists as `name`. */
  predicate ListsAs(f: string, name: string) {
    EndsWith(f, ".conf") && name == ReplaceFirst(f, ".conf", "")
  }

  /** `files.filter(f => f.endsWith('.conf')).map(f => f.replace('.conf', ''))`. */
  function ConfigNames(files: seq<string>): seq<string> {
    ConcatMap(files, Listed)
  }

  /** What one directory entry contributes to the listing. */
  function Listed(f: string): (r: seq<string>)
    ensures forall name :: name in r <==> ListsAs(f, name)
  {
    if EndsWith(f, ".conf") then [ReplaceFirst(f, ".conf", "")] else []
  }

  /** The configured exit nodes; a directory that cannot be read (`None`) gives none. */
  function ExitNodeConfigs(files: Option<seq<string>>): seq<string> {
    match files
    case None => []
    case Some(fs) => ConfigNames(fs)
  }

  /** Listing keeps directory order: it distributes over concatenation. */
  lemma ConfigNamesConcat(a: seq<string>, b: seq<string>)
    ensures ConfigNames(a + b) == ConfigNames(a) + ConfigNames(b)
  {
    ConcatMapConcat(a, b, Listed);
  }

  /** Exactly the `.conf` files contribute, each with its first `.conf` removed. */
  lemma ConfigNamesIff(files: seq<string>, name: string)
    ensures name in ConfigNames(files) <==> exists j :: 0 <= j < |files| && ListsAs(files[j], name)
  {
    ConcatMapMember(files, Listed, name);
    if exists j :: 0 <= j < |files| && ListsAs(files[j], name) {
      var j :| 0 <= j < |files| && ListsAs(files[j], name);
      assert name in Listed(files[j]);
    }
  }

  /** For a device name without a dot, `<name>.conf` lists as `<name>`. */
  lemma ConfFileName(name: string)
    requires '.' !in name
    ensures ConfigNames([name + ".conf"]) == [name]
  {
    var f := name + ".conf";
    var none: seq<string> := [];
    assert [f][..0] == none;
    EndsWithConcat(name, ".conf");
    assert f[|name|..|name| + 5] == ".conf";
    assert OccursAt(f, ".conf", |name|);
    forall j | 0 <= j < |name|
      ensures !OccursAt(f, ".conf", j)
    {
      assert f[j] == name[j];
      if j + 5 <= |f| {
        assert f[j..j + 5][0] == f[j];
      }
    }
    assert f[..|name|] == name;
    assert f[|name| + 5..] == [];
    assert ReplaceFirst(f, ".conf", "") == f[..|name|] + "" + f[|name| + 5..];
    assert name + "" + [] == name;
    assert ConfigNames([f]) == ConfigNames([f][..0]) + [ReplaceFirst(f, ".conf", "")];
  }

  /** `ip addr show` succeeded and its output matches `/inet /`. */
  function HasIpAddress(addrShow: Option<string>): bool {
    addrShow.Some? && Contains(addrShow.value, "inet ")
  }

  /** What one configured device contributes to the discovery: itself when it is up with an address. */
  function ActiveEntry(d: string, isUp: string -> bool, addrShow: string -> Option<string>): (r: seq<string>)
    ensures d in r <==> isUp(d) && HasIpAddress(addrShow(d))
    ensures forall x :: x in r ==> x == d
  {
    if isUp(d) && HasIpAddress(addrShow(d)) then [d] else []
  }

  /** The configured devices that are up and have an address, in listing order. */
  function ActiveOf(configs: seq<string>, isUp: string -> bool, addrShow: string -> Option<string>): seq<string> {
    ConcatMap(configs, (d: string) => ActiveEntry(d, isUp, addrShow))
  }

  lemma ActiveOfIff(configs: seq<string>, isUp: string -> bool, addrShow: string -> Option<string>, d: string)
    ensures d in ActiveOf(configs, isUp, addrShow) <==> d in configs && isUp(d) && HasIpAddress(addrShow(d))
  {
    var f := (x: string) => ActiveEntry(x, isUp, addrShow);
    ConcatMapMember(configs, f, d);
    if d in ActiveOf(configs, isUp, addrShow) {
      var j :| 0 <= j < |configs| && d in f(configs[j]);
      assert d == configs[j];
    }
    if d in configs && isUp(d) && HasIpAddress(addrShow(d)) {
      var j :| 0 <= j < |configs| && configs[j] == d;
      assert d in f(configs[j]);
    }
  }

  /** Discovery keeps the listing's order: it distributes over concatenation. */
  lemma ActiveOfConcat(a: seq<string>, b: seq<string>, isUp: string -> bool, addrShow: string -> Option<string>)
    ensures ActiveOf(a + b, isUp, addrShow) == ActiveOf(a, isUp, addrShow) + ActiveOf(b, isUp, addrShow)
  {
    ConcatMapConcat(a, b, (d: string) => ActiveEntry(d, isUp, addrShow));
  }

  /** The discovery loop over the listed configurations. */
  method DiscoverExitNodes(files: Option<seq<string>>, isUp: string -> bool, addrShow: string -> Option<string>)
    returns (activeDevices: seq<string>)
    ensures activeDevices == ActiveOf(ExitNodeConfigs(files), isUp, addrShow)
    ensures files.None? ==> activeDevices == []
  {
    var configs := ExitNodeConfigs(files);
    activeDevices := [];
    var i := 0;
    while i < |configs|
      invariant 0 <= i <= |configs|
      invariant activeDevices == ActiveOf(configs[..i], isUp, addrShow)
    {
      var device := configs[i];
      assert configs[..i + 1] == configs[..i] + [device];
      ConcatMapSnoc(configs[..i], device, (d: string) => ActiveEntry(d, isUp, addrShow));
      var up := isUp(device);
      var hasIp := HasIpAddress(addrShow(device));
      if up && hasIp {
        activeDevices := activeDevices + [device];
      } else {
        assert activeDevices + [] == activeDevices;
      }
      i := i + 1;
    }
    assert configs[..|configs|] == configs;
  }

  // ---------------------------------------------------------------------------------
  // Bringing exit nodes up

  function ConfigPath(device: string): string {
    ExitNodesDir + "/" + device + ".conf"
  }

  function WgQuickUp(device: string): string {
    "wg-quick up " + ConfigPath(device)
  }

  /** The `wg-quick up` commands for the devices that are not `default` and not already up. */
  function BringUpCommands(devices: seq<string>, isUp: string -> bool): seq<string>
    decreases |devices|
  {
    if |devices| == 0 then []
    else
      var d := devices[|devices| - 1];
      BringUpCommands(devices[..|devices| - 1], isUp) + (if d != DefaultDevice && !isUp(d) then [WgQuickUp(d)] else [])
  }

  lemma WgQuickUpInjective(d: string, e: string)
    requires WgQuickUp(d) == WgQuickUp(e)
    ensures d == e
  {
    assert ConfigPath(d) == WgQuickUp(d)[12..];
    assert ConfigPath(e) == WgQuickUp(e)[12..];
    CancelAround(ExitNodesDir + "/", d, e, ".conf");
  }

  /** A device is brought up exactly when it is listed, is not `default` and is down. */
  lemma {:induction false} BringUpIff(devices: seq<string>, isUp: string -> bool, d: string)
    ensures WgQuickUp(d) in BringUpCommands(devices, isUp) <==> d in devices && d != DefaultDevice && !isUp(d)
    ensures |BringUpCommands(devices, isUp)| <= |devices|
    decreases |devices|
  {
    if |devices| > 0 {
      var init := devices[..|devices| - 1];
      var last := devices[|devices| - 1];
      BringUpIff(init, isUp, d);
      assert devices == init + [last];
      if WgQuickUp(d) == WgQuickUp(last) {
        WgQuickUpInjective(d, last);
      }
    }
  }

  /**
   * The bring-up loop; `isUp` is the `wg show` check. A failing `wg-quick` is absorbed, so
   * every command is issued whatever became of the earlier ones.
   */
  method BringUpExitNodes(devices: seq<string>, isUp: string -> bool) returns (commands: seq<string>)
    ensures commands == BringUpCommands(devices, isUp)
  {
    commands := [];
    var i := 0;
    while i < |devices|
      invariant 0 <= i <= |devices|
      invariant commands == BringUpCommands(devices[..i], isUp)
    {
      var device := devices[i];
      assert devices[..i + 1][..i] == devices[..i];
      assert devices[..i + 1][i] == device;
      if device == DefaultDevice || isUp(device) {
        assert BringUpCommands(devices[..i + 1], isUp) == commands + [];
        assert commands + [] == commands;
      }
      if device == DefaultDevice {
        i := i + 1;
        continue;
      }
      if isUp(device) {
        i := i + 1;
        continue;
      }
      var configPath := ExitNodesDir + "/" + device + ".conf";
      commands := commands + ["wg-quick up " + configPath];
      i := i + 1;
    }
    assert devices[..|devices|] == devices;
  }

  // ---------------------------------------------------------------------------------
  // Reconciliation

  /** Egress on, a non-empty device name, and no configuration for that device. */
  predicate NeedsReset(c: Client, available: seq<string>) {
    c.egressEnabled && c.egressDevice.Some? && c.egressDevice.value != "" && c.egressDevice.value !in available
  }

  /** The update payload: egress off, device cleared, every other column copied. */
  function EgressCleared(c: Client): (r: Client)
    ensures !r.egressEnabled && r.egressDevice == None
    ensures r.id == c.id && r.name == c.name && r.enabled == c.enabled && r.ipv4Address == c.ipv4Address
    ensures r.settings == c.settings
  {
    c.(egressEnabled := false, egressDevice := None)
  }

  /** One client after its turn in the loop; `updateFails` says which updates are refused. */
  function Reconcile(c: Client, available: seq<string>, updateFails: int -> bool): Client {
    if NeedsReset(c, available) && !updateFails(c.id) then EgressCleared(c) else c
  }

  function Reconciled(clients: seq<Client>, available: seq<string>, updateFails: int -> bool): (r: seq<Client>)
    ensures |r| == |clients|
    ensures forall i :: 0 <= i < |r| ==> r[i] == Reconcile(clients[i], available, updateFails)
  {
    seq(|clients|, i requires 0 <= i < |clients| => Reconcile(clients[i], available, updateFails))
  }

  /**
   * The reconciliation loop over the client table: each client that needs a reset is
   * updated in place unless its update fails, and the loop carries on either way.
   * A directory that cannot be read means no device is available.
   */
  method ValidateClientEgressDevices(files: Option<seq<string>>, clients: array<Client>, updateFails: int -> bool)
    modifies clients
    ensures clients[..] == Reconciled(old(clients[..]), ExitNodeConfigs(files), updateFails)
  {
    var availableDevices := ExitNodeConfigs(files);
    var i := 0;
    while i < clients.Length
      invariant 0 <= i <= clients.Length
      invariant forall k :: 0 <= k < i ==> clients[k] == Reconcile(old(clients[k]), availableDevices, updateFails)
      invariant forall k :: i <= k < clients.Length ==> clients[k] == old(clients[k])
    {
      var client := clients[i];
      if !client.egressEnabled || client.egressDevice.None? || client.egressDevice.value == "" {
        i := i + 1;
        continue;
      }
      if client.egressDevice.value !in availableDevices {
        if !updateFails(client.id) {
          clients[i] := client.(egressEnabled := false, egressDevice := None);
        }
      }
      i := i + 1;
    }
  }

  /** When no update fails, no client is left pointing at a missing exit node. */
  lemma ReconciledConsistent(clients: seq<Client>, available: seq<string>, updateFails: int -> bool)
    requires forall c :: c in clients ==> !updateFails(c.id)
    ensures forall i :: 0 <= i < |clients| ==> !NeedsReset(Reconciled(clients, available, updateFails)[i], available)
  {
    forall i | 0 <= i < |clients|
      ensures !NeedsReset(Reconciled(clients, available, updateFails)[i], available)
    {
      assert clients[i] in clients;
    }
  }

  /** A second pass changes nothing once every update has gone through. */
  lemma ReconciledIdempotent(clients: seq<Client>, available: seq<string>, updateFails: int -> bool)
    requires forall c :: c in clients ==> !updateFails(c.id)
    ensures Reconciled(Reconciled(clients, available, updateFails), available, updateFails) == Reconciled(clients, available, updateFails)
  {
    ReconciledConsistent(clients, available, updateFails);
  }

  /** Exactly the clients that need a reset change, enabled or not; the rest are untouched. */
  lemma ReconciledChangesOnlyStale(clients: seq<Client>, available: seq<string>, updateFails: int -> bool, i: int)
    requires 0 <= i < |clients|
    ensures Reconciled(clients, available, updateFails)[i] != clients[i] <==>
              NeedsReset(clients[i], available) && !updateFails(clients[i].id)
    ensures NeedsReset(clients[i], available) <==> NeedsReset(clients[i].(enabled := !clients[i].enabled), available)
  {
  }
}
