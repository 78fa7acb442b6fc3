# wg-easy access control and egress routing, modelled in Dafny

This project models two parts of wg-easy, the WireGuard management server. It proves
properties of each part.

- **Access control lists (ACLs).** An ACL is a per-interface set of firewall rules.
  - The model covers the rule and configuration tables, their validation schemas and the
    repository service over them.
  - It also covers the generator that turns a configuration and its enabled rules into an
    nftables script and into the WireGuard PostUp/PreDown hooks.
- **Exit-node egress routing.** Clients can send their traffic through another WireGuard
  device, an "exit node".
  - The model covers how clients are grouped by device, and how each device is given a
    firewall mark and a routing table.
  - It covers how configured exit nodes are discovered and brought up, and how stale client
    settings are reset.
  - It covers the bash setup and cleanup scripts and the PostUp/PreDown hooks they feed.

Modules, one per concern:

- `AclSchema` holds the rule and configuration records and the column defaults.
- `AclTypes` holds the validation schemas. It includes the ports grammar: a comma list of
  ports 1..65535 or ascending ranges `a-b`.
- `AclService` holds the repository. The class `AclStore` has the tables as `map` fields.
  Its methods change them, with insertion ids and the lazy insert of a default
  configuration.
- `AclHelper` holds the nftables generator, the script safety gate and the ACL hooks.
- `EgressDevices` holds grouping, marks and tables, discovery, bring-up and
  reconciliation of client settings.
- `EgressScripts` holds the egress setup and cleanup scripts and their hooks.
- `OrderedGroups` models a JavaScript `Map<string, V[]>`, filled by get-or-create-then-push
  and iterated in insertion order.
- `Strings` and `Numerals` model the JavaScript built-ins the code relies on: `startsWith`,
  `endsWith`, `includes`, `replace`, `split`, `join`, `trim`, `parseInt` and
  `toString(radix)`.
- `Hooks` says what a hook does to the host: the commands it runs, the file it writes or
  removes, and the command line it returns.
- `Wrappers` holds Option and Result.

The host is passed in rather than touched:

- A directory listing is `Option<seq<string>>`, where `None` means the read failed.
- `isUp`, `addrShow` and `updateFails` are functions that answer what the host would say.
- Database tables are the fields of `AclStore`, or sequences of clients.
- Each hook returns a `HookPlan` instead of writing or deleting a file.

Where code and documentation differ, the model follows the code:

- Nothing ties ICMP to empty ports. An ICMP rule's `ports` is never checked against its
  protocol.
- The pseudo-device `default` receives a mark, a table and cleanup lines, like any exit
  node.
- The PostUp hook of a disabled ACL deletes the table `wg_acl_v4`, whatever table name is
  configured.

Where the code leaves the outcome to the database driver, the model makes a choice: an
update of a rule that sets no field succeeds and changes nothing.

## Model

| member | source | states |
|---|---|---|
| AclSchema.ConfigWithColumnDefaults | src/server/database/repositories/acl/schema.ts:29-47 | a configuration row inserted with only its interface id is disabled, drops by default and uses table `wg_acl_v4` |
| AclTypes.ParseProtocol | src/server/database/repositories/acl/types.ts:16 | a protocol is accepted exactly when it is `tcp`, `udp` or `icmp`, and the accepted value prints back as the input |
| AclTypes.ParseProtocolName | src/server/database/repositories/acl/types.ts:16 | every protocol's name parses back to that protocol |
| AclTypes.ParsePolicy | src/server/database/repositories/acl/types.ts:68 | a default policy is accepted exactly when it is `drop` or `accept`, and the value prints back as the input |
| AclTypes.ParsePolicyName | src/server/database/repositories/acl/types.ts:68 | every policy's name parses back to that policy |
| AclTypes.EmptyPortsValid | src/server/database/repositories/acl/types.ts:23 | the empty ports string is valid |
| AclTypes.PortsValidConcat | src/server/database/repositories/acl/types.ts:25-27 | a list `a,b` of non-empty parts is valid exactly when both parts are |
| AclTypes.SingleToken | src/server/database/repositories/acl/types.ts:25-27 | a trimmed text without a comma is valid exactly when it is a valid single token |
| AclTypes.DecimalTokenIff | src/server/database/repositories/acl/types.ts:28-31 | the decimal text of `n` is a valid token exactly when 1 <= n <= 65535 |
| AclTypes.LeadingZeroToken | src/server/database/repositories/acl/types.ts:28-31 | a leading zero does not change whether a digit token is valid, because the digits are parsed as a number |
| AclTypes.RangeTokenIff | src/server/database/repositories/acl/types.ts:32-38 | `a-b` with digit ends is valid exactly when both ends lie in 1..65535 and the start is below the end |
| AclTypes.ManyDashesRejected | src/server/database/repositories/acl/types.ts:28-39 | a token with two or more dashes is rejected |
| AclTypes.NonDigitStartRejected | src/server/database/repositories/acl/types.ts:28-39 | a token that does not start with a digit is rejected |
| AclTypes.NonDigitStartListRejected | src/server/database/repositories/acl/types.ts:18-39 | a comma-free entry with no blank at either end that does not start with a digit is an invalid list |
| AclTypes.TrailingCommaRejected | src/server/database/repositories/acl/types.ts:25-39 | a list ending in a comma is invalid, because the last part is empty |
| AclTypes.WhitespaceOnlyRejected | src/server/database/repositories/acl/types.ts:23-39 | a non-empty all-blank string is invalid: it is not the empty string, and it trims to an empty token |
| AclTypes.DecimalListIff | src/server/database/repositories/acl/types.ts:18-46 | a list of one number is valid exactly when the number is a port |
| AclTypes.RangeListIff | src/server/database/repositories/acl/types.ts:18-46 | a list of one range `m-n` is valid exactly when 1 <= m < n <= 65535 |
| AclTypes.RejectedNumbers | src/server/database/repositories/acl/types.ts:18-46 | `0` and `70000` are rejected |
| AclTypes.RejectedRanges | src/server/database/repositories/acl/types.ts:18-46 | the descending range `10-5` and the empty range `5-5` are rejected |
| AclTypes.RejectedShapes | src/server/database/repositories/acl/types.ts:18-46 | `80,`, a blank, `-5`, `1-2-3` and `abc` are rejected |
| AclTypes.AcceptedTokens | src/server/database/repositories/acl/types.ts:18-46 | `80` and the full range `1-65535` are accepted |
| AclTypes.AcceptedLists | src/server/database/repositories/acl/types.ts:18-46 | `80,443` and `22,80-90` are accepted |
| AclTypes.RuleIssues | src/server/database/repositories/acl/types.ts:49-57 | the failing rule fields are listed exactly, and configuration fields never appear |
| AclTypes.ValidateRuleCreate | src/server/database/repositories/acl/types.ts:49-57 | creation succeeds exactly when all five checks pass. Values are kept, `enabled` defaults to true and `description` stays optional. On failure, each field is reported exactly when its check fails |
| AclTypes.ProtocolIgnoredByPortsCheck | src/server/database/repositories/acl/types.ts:18-57 | changing the protocol between valid values never changes whether a rule validates, so ICMP with ports is accepted |
| AclTypes.ValidateRuleUpdate | src/server/database/repositories/acl/types.ts:60 | a partial update succeeds exactly when every field present passes its check. Absent fields stay absent, and `enabled` is not defaulted |
| AclTypes.EmptyUpdateAccepted | src/server/database/repositories/acl/types.ts:60 | an update with no fields is a valid empty patch |
| AclTypes.FullUpdateMatchesCreate | src/server/database/repositories/acl/types.ts:49-60 | an update that sets every field is accepted exactly when the same creation is, and carries the same values |
| AclTypes.ValidateConfigUpdate | src/server/database/repositories/acl/types.ts:63-70 | a configuration update succeeds exactly when the policy is `drop` or `accept` and the table name is non-empty. On failure, each of these two fields is reported exactly when it is wrong |
| AclService.ListingMembers | src/server/database/repositories/acl/service.ts:20-25 | a listing holds exactly the stored rules of that interface, and only enabled ones when asked |
| AclService.ListingAscending | src/server/database/repositories/acl/service.ts:20-25 | a listing is ordered by strictly increasing id |
| AclService.EnabledListingIsFiltered | src/server/database/repositories/acl/service.ts:124-132 | the enabled listing is the full listing with disabled rules removed, in the same order |
| AclService.ListingFrame | src/server/database/repositories/acl/service.ts:20-25 | storing a rule at an id not yet reached does not change a listing |
| AclService.CreatedRuleListedLast | src/server/database/repositories/acl/service.ts:43-46 | a new rule appears last in its interface's listing, and other interfaces' listings do not change |
| AclService.ApplyPatch | src/server/database/repositories/acl/service.ts:51-62 | an update overwrites exactly the fields the patch sets, each of the seven, and keeps the id and every absent field |
| AclService.ApplyNoChanges | src/server/database/repositories/acl/service.ts:51-62 | the empty patch leaves a rule as it was |
| AclService.ApplyPatchIdempotent | src/server/database/repositories/acl/service.ts:51-62 | applying the same patch twice equals applying it once |
| AclService.LazyConfig | src/server/database/repositories/acl/service.ts:89-99 | the configuration inserted on first read is the column-default row for the interface |
| AclService.ApplyConfigUpdate | src/server/database/repositories/acl/service.ts:108-119 | a configuration update keeps the interface id and takes enabled, policy, table name and the two carried fields from the update |
| AclService.AclStore.constructor | src/server/database/repositories/acl/schema.ts:7 | the tables start empty and ids start at 1 |
| AclService.AclStore.GetRules | src/server/database/repositories/acl/service.ts:20-25 | returns exactly the interface's rules, in ascending id order |
| AclService.AclStore.GetEnabledRules | src/server/database/repositories/acl/service.ts:124-132 | returns exactly the interface's enabled rules, in ascending id order |
| AclService.AclStore.GetRule | src/server/database/repositories/acl/service.ts:30-38 | returns the stored rule, or the error `ACL rule <id> not found` |
| AclService.AclStore.CreateRule | src/server/database/repositories/acl/service.ts:43-46 | stores the rule under a fresh id, advances the id counter, changes nothing else, and the rule is listed last |
| AclService.AclStore.UpdateRule | src/server/database/repositories/acl/service.ts:51-62 | replaces the rule by its patched version, or fails with not-found and changes nothing |
| AclService.AclStore.DeleteRule | src/server/database/repositories/acl/service.ts:67-77 | removes and returns the rule, or fails with not-found and changes nothing |
| AclService.AclStore.GetConfig | src/server/database/repositories/acl/service.ts:83-103 | returns the stored configuration. If there is none, it inserts and returns the default row |
| AclService.AclStore.UpdateConfig | src/server/database/repositories/acl/service.ts:108-119 | applies the update to a stored configuration, or fails with `ACL config for <id> not found` and changes nothing |
| AclService.GetConfigTwice | src/server/database/repositories/acl/service.ts:83-103 | reading a configuration twice yields the same row and inserts at most once |
| AclHelper.Sanitize | src/server/utils/aclHelper.ts:21-23 | keeps the length, turns every `.`, `:`, `/` and `-` into `_`, and leaves every other character |
| AclHelper.SanitizeIdempotent | src/server/utils/aclHelper.ts:21-23 | a sanitized name has no special character left, and sanitizing again changes nothing |
| AclHelper.GroupRules | src/server/utils/aclHelper.ts:164-171 | the grouping loop builds the insertion-ordered map of rules by key |
| AclHelper.EmitGroups | src/server/utils/aclHelper.ts:174-199 | the emitting loop yields, group by group, the port sets and rule lines |
| AclHelper.GenerateNftablesScript | src/server/utils/aclHelper.ts:148-213 | the generated script is the frame around the port sets and rule lines of the grouped rules |
| AclHelper.ChainHeadLines | src/server/utils/aclHelper.ts:135-139 | the chain header holds the policy line, the established/related line and the egress line |
| AclHelper.BodiesShareFrame | src/server/utils/aclHelper.ts:125-212 | both bodies start with the table header, contain the chain header and end with the closing braces |
| AclHelper.DenyFrame | src/server/utils/aclHelper.ts:132-142 | the default-deny body starts with the table header, contains the chain header and ends with the footer |
| AclHelper.FullFrame | src/server/utils/aclHelper.ts:201-212 | the rules body starts with the table header, contains the chain header and ends with the footer |
| AclHelper.BodiesShareChainLines | src/server/utils/aclHelper.ts:125-212 | both bodies contain the policy, established/related and egress lines |
| AclHelper.PublicEgressToggle | src/server/utils/aclHelper.ts:125-213 | turning on public egress inserts exactly the private-range set and the public-egress rule into both bodies |
| AclHelper.DenyToggle | src/server/utils/aclHelper.ts:125-143 | turning on public egress inserts exactly the two optional lines into the default-deny body |
| AclHelper.FullToggle | src/server/utils/aclHelper.ts:148-213 | turning on public egress inserts exactly the two optional lines into the rules body |
| AclHelper.RuleLinesOfEach | src/server/utils/aclHelper.ts:174-199 | each group key yields exactly one rule line, in key order |
| AclHelper.OneRuleLinePerKey | src/server/utils/aclHelper.ts:164-199 | groups are the distinct keys in first-appearance order, each with exactly one rule line |
| AclHelper.KeySuffix | src/server/utils/aclHelper.ts:167 | a group key ends with the rule's protocol |
| AclHelper.KeyDeterminesProtocol | src/server/utils/aclHelper.ts:167 | rules with the same key have the same protocol |
| AclHelper.GroupsShareKey | src/server/utils/aclHelper.ts:164-171 | every rule in a group has that group's key and comes from the input |
| AclHelper.PortSetsOfNonIcmp | src/server/utils/aclHelper.ts:174-199 | there is one port set per non-ICMP group and none for ICMP groups, in group order |
| AclHelper.FlagsIntervalIff | src/server/utils/aclHelper.ts:186-190 | a group's joined ports contain a dash exactly when some rule's ports contain one, which marks the set `interval` |
| AclHelper.EveryRuleCovered | src/server/utils/aclHelper.ts:164-199 | every rule's key is a group. A non-ICMP rule's group has a port set and a rule line; an ICMP rule's group has the ICMP line of its first rule |
| AclHelper.ValidateScript | src/server/utils/aclHelper.ts:218-230 | a script is rejected as unsafe exactly when it contains `rm -rf` or `dd if=`. It is rejected as missing nft exactly when it is safe, non-blank and lacks `nft`. It passes exactly when it is safe and either contains `nft` or is blank |
| AclHelper.BlankScriptAccepted | src/server/utils/aclHelper.ts:225 | a blank script passes the gate |
| AclHelper.BodiesStartWithDelete | src/server/utils/aclHelper.ts:125-212 | both bodies start with the table delete command, so the hook file mentions `nft` |
| AclHelper.UnsafeTableNameRejected | src/server/utils/aclHelper.ts:218-222 | a table name containing `rm -rf` makes the gate reject either generated script as unsafe |
| AclHelper.PostUpPlan | src/server/utils/aclHelper.ts:55-96 | disabled: clear the table and remove the file. Enabled: write the default-deny script when there are no enabled rules, else the rules script, behind the shebang |
| AclHelper.SetupScriptMentionsNft | src/server/utils/aclHelper.ts:225-227 | an enabled PostUp file never fails the missing-nft check |
| AclHelper.TeardownIgnoresTableName | src/server/utils/aclHelper.ts:65 | the teardown always deletes `wg_acl_v4`, even when another table was configured |
| AclHelper.PreDownPlan | src/server/utils/aclHelper.ts:101-120 | disabled: remove the file. Enabled: write the teardown behind the shebang and return its path |
| AclHelper.GeneratePostUpScript | src/server/utils/aclHelper.ts:55-96 | reads (lazily inserting) the configuration and plans PostUp with the enabled rules, changing no rule |
| AclHelper.GeneratePreDownScript | src/server/utils/aclHelper.ts:101-120 | reads (lazily inserting) the configuration and plans PreDown |
| EgressDevices.DeviceOf | src/server/utils/egressHelper.ts:201 | a client's device is never empty; it is `default` when unset |
| EgressDevices.GroupClientsByDevice | src/server/utils/egressHelper.ts:191-208 | the grouping loop builds the insertion-ordered map of addresses by device |
| EgressDevices.GroupingMembership | src/server/utils/egressHelper.ts:191-208 | the devices are exactly those of enabled routed clients, in first-appearance order. Each holds exactly its clients' addresses in input order, and the sizes add up to the number of routed clients |
| EgressDevices.RoutedClientGrouped | src/server/utils/egressHelper.ts:194-205 | every enabled routed client's address is in its device's group |
| EgressDevices.UnroutedClientIgnored | src/server/utils/egressHelper.ts:195-198 | a disabled or unrouted client does not change the grouping |
| EgressDevices.Fwmark | src/server/utils/egressHelper.ts:217 | a mark is one line of text |
| EgressDevices.FwmarkParses | src/server/utils/egressHelper.ts:217 | the mark at position i is `0x` followed by the hexadecimal of 0x10 + i |
| EgressDevices.AssignDeviceParams | src/server/utils/egressHelper.ts:213-220 | one group per device, in order, with mark 0x10 + i, table 200 + i and no addresses yet |
| EgressDevices.DeviceParamsDistinct | src/server/utils/egressHelper.ts:213-220 | distinct positions get distinct marks and distinct tables |
| EgressDevices.DefaultDeviceAllocated | src/server/utils/egressHelper.ts:245-246 | the `default` device is given a mark and table like any other |
| EgressDevices.Listed | src/server/utils/egressHelper.ts:19-21 | a file lists a name exactly when it ends in `.conf` and the name is the file with the first `.conf` removed |
| EgressDevices.ConfigNamesConcat | src/server/utils/egressHelper.ts:19-21 | listing keeps the directory's order: it distributes over concatenation |
| EgressDevices.ConfigNamesIff | src/server/utils/egressHelper.ts:19-21 | a name is configured exactly when some file lists it |
| EgressDevices.ConfFileName | src/server/utils/egressHelper.ts:19-21 | the file `<name>.conf`, with no dot in the name, lists exactly `<name>` |
| EgressDevices.ActiveEntry | src/server/utils/egressHelper.ts:126-135 | a device is kept exactly when it is up and has an address |
| EgressDevices.ActiveOfIff | src/server/utils/egressHelper.ts:126-135 | a device is discovered exactly when it is configured, up and has an address |
| EgressDevices.ActiveOfConcat | src/server/utils/egressHelper.ts:126-135 | discovery keeps the listing's order: it distributes over concatenation |
| EgressDevices.DiscoverExitNodes | src/server/utils/egressHelper.ts:118-143 | the loop yields the active configured devices in order, and nothing when the directory cannot be read |
| EgressDevices.WgQuickUpInjective | src/server/utils/egressHelper.ts:177-178 | distinct devices get distinct bring-up commands |
| EgressDevices.BringUpIff | src/server/utils/egressHelper.ts:162-185 | a device's bring-up runs exactly when it is listed, is not `default` and is down, at most once per listed device |
| EgressDevices.BringUpExitNodes | src/server/utils/egressHelper.ts:162-185 | the loop issues those commands in device order |
| EgressDevices.EgressCleared | src/server/utils/egressHelper.ts:52-77 | a reset turns routing off and clears the device, keeping every other client field |
| EgressDevices.Reconciled | src/server/utils/egressHelper.ts:42-84 | each client is reconciled on its own, position by position |
| EgressDevices.ValidateClientEgressDevices | src/server/utils/egressHelper.ts:35-89 | after the loop, each client holds its reconciled settings against the configured exit nodes |
| EgressDevices.ReconciledConsistent | src/server/utils/egressHelper.ts:42-84 | when no update fails, no client afterwards routes through a missing device |
| EgressDevices.ReconciledIdempotent | src/server/utils/egressHelper.ts:42-84 | when no update fails, reconciling twice equals reconciling once |
| EgressDevices.ReconciledChangesOnlyStale | src/server/utils/egressHelper.ts:44-49 | a client changes exactly when it routes through a missing device and its update succeeds. Whether the client itself is enabled plays no part |
| EgressScripts.AppendDeviceBlocks | src/server/utils/egressHelper.ts:322-346 | the per-device loop appends each group's block in order |
| EgressScripts.GenerateNftablesEgressScript | src/server/utils/egressHelper.ts:308-439 | the generated text is the declarations, the device blocks, the guard and the NAT ruleset |
| EgressScripts.GuardBeforeNatTable | src/server/utils/egressHelper.ts:348-356 | the early-exit guard comes right before the NAT heading and table delete |
| EgressScripts.BlockInSetup | src/server/utils/egressHelper.ts:322-346 | every group's block is in the setup text |
| EgressScripts.SetupRoutesExitNode | src/server/utils/egressHelper.ts:335-345 | a non-default group with addresses probes its device, records its addresses, and adds its rule and route |
| EgressScripts.SetupRecordsDefaultIps | src/server/utils/egressHelper.ts:328-333 | the `default` group records its addresses in `DEFAULT_DEVICE_IPS` |
| EgressScripts.EmptyGroupSilent | src/server/utils/egressHelper.ts:323 | a group without addresses adds nothing to the setup |
| EgressScripts.AppendCleanupLines | src/server/utils/egressHelper.ts:294-297 | the cleanup loop appends each group's rule delete and route flush in order |
| EgressScripts.GenerateCleanupScript | src/server/utils/egressHelper.ts:288-297 | the cleanup text is the table delete, then each group's pair of lines |
| EgressScripts.CleanupMirrorsSetup | src/server/utils/egressHelper.ts:295 | the rule delete uses the same selector as the setup's rule add |
| EgressScripts.CleanupPairCount | src/server/utils/egressHelper.ts:295-296 | each group's cleanup is exactly two lines |
| EgressScripts.CleanupLineCount | src/server/utils/egressHelper.ts:294-297 | the cleanup loop emits exactly two lines per group |
| EgressScripts.DeviceGroupsOf | src/server/utils/egressHelper.ts:244-251 | one setup group per device |
| EgressScripts.FillClientIps | src/server/utils/egressHelper.ts:249-251 | every group receives its device's addresses and keeps its device, mark and table |
| EgressScripts.BuildDeviceGroups | src/server/utils/egressHelper.ts:244-251 | the setup groups are the assigned parameters filled with each device's addresses |
| EgressScripts.HasGroupsIff | src/server/utils/egressHelper.ts:232 | there is a group exactly when some client is enabled and routed |
| EgressScripts.EgressPostUpEmptyIff | src/server/utils/egressHelper.ts:232-240 | PostUp returns nothing, and removes its file, exactly when no client is routed |
| EgressScripts.EgressPreDownEmptyIff | src/server/utils/egressHelper.ts:276-283 | PreDown returns nothing, and removes its file, exactly when no client is routed |
| EgressScripts.GenerateEgressPostUpScript | src/server/utils/egressHelper.ts:225-267 | the PostUp hook brings exit nodes up and writes the setup script |
| EgressScripts.GenerateEgressPreDownScript | src/server/utils/egressHelper.ts:272-303 | the PreDown hook writes the cleanup script |
| EgressScripts.SetupGroupsFilled | src/server/utils/egressHelper.ts:248-251 | every setup group holds exactly its device's routed addresses, so none is empty |
| EgressScripts.SetupAndCleanupAgree | src/server/utils/egressHelper.ts:285-286 | setup and cleanup give the same device, mark and table at each position |
| EgressScripts.PostUpWritesSetup | src/server/utils/egressHelper.ts:262-263 | with a routed client, PostUp writes the setup text behind the shebang |
| EgressScripts.SetupAddsRule | src/server/utils/egressHelper.ts:225-267 | the written setup adds the policy rule of every routed exit node |
| EgressScripts.CleanupUndoesSetup | src/server/utils/egressHelper.ts:272-303 | the written cleanup deletes the rule and flushes the table of every routed device |
| OrderedGroups.BuildWellFormed | src/server/utils/aclHelper.ts:164-171 | the map lists each key once, exactly its keys, and no empty list |
| OrderedGroups.BuildKeys | src/server/utils/egressHelper.ts:191-208 | the keys are exactly those of the input pairs |
| OrderedGroups.BuildFirstAppearance | src/server/utils/aclHelper.ts:164-174 | keys iterate in the order of their first appearance in the input |
| OrderedGroups.BuildMembers | src/server/utils/aclHelper.ts:164-171 | each list holds exactly the values paired with its key, in input order |
| OrderedGroups.BuildTotal | src/server/utils/egressHelper.ts:191-208 | the list sizes add up to the number of input pairs |
| OrderedGroups.ValuesForContains | src/server/utils/aclHelper.ts:164-171 | every input value is in its key's list |
| OrderedGroups.ValuesForOrigin | src/server/utils/aclHelper.ts:164-171 | every value in a list comes from an input pair with that key |
| Strings.ReplaceFirst | src/server/utils/egressHelper.ts:21 | with no occurrence the text is unchanged; otherwise only the first occurrence is replaced |
| Strings.Split | src/server/database/repositories/acl/types.ts:25 | splitting yields at least one part, and no part holds the separator |
| Strings.SplitJoin | src/server/database/repositories/acl/types.ts:25 | joining the parts with the separator gives back the text |
| Strings.SplitConcat | src/server/database/repositories/acl/types.ts:25 | splitting `a,b` gives the parts of `a` followed by the parts of `b` |
| Strings.TrimEmptyIff | src/server/utils/aclHelper.ts:225 | a text trims to empty exactly when every character is white space |
| Strings.ContainsIff | src/server/utils/aclHelper.ts:220 | `includes` holds exactly when the pattern occurs at some position |
| Strings.JoinContainsPart | src/server/utils/aclHelper.ts:186-189 | every part is contained in the joined text |
| Strings.JoinHasChar | src/server/utils/aclHelper.ts:186-189 | the joined text holds a character that is not the separator exactly when some part holds it |
| Numerals.ToBase | src/server/utils/egressHelper.ts:217 | `toString(radix)` yields a non-empty string of lower-case digits below the radix |
| Numerals.FromToBase | src/server/utils/egressHelper.ts:217 | reading the digits back gives the number |
| Numerals.ToBaseInjective | src/server/utils/egressHelper.ts:217 | distinct numbers print differently |
| Numerals.LeadingZero | src/server/database/repositories/acl/types.ts:29 | a leading zero digit does not change the parsed value |
| Numerals.IntToString | src/server/utils/aclHelper.ts:181 | an id prints as a non-empty single line |

## Left out

- Host I/O is not performed. It is passed in or returned:
  - directory reads are an `Option` listing;
  - tied-in commands (`wg show`, `ip addr show`) are the functions `isUp` and `addrShow`;
  - a failing database update is `updateFails`;
  - file writes and deletes are a returned `HookPlan`;
  - commands run by `exec` are its command list.
- `isUp` and `addrShow` are snapshots: a device asked twice gives the same answer, and a device brought up during the hook is not seen as up.
- `applyAclRules` and `applyEgressRules` are not modelled. They run the generated scripts on the host.
- The runtime meaning of the generated text is not modelled. That covers what nft, `ip rule`, `ip route`, `awk`, `sed` and bash associative arrays do with it. Properties are about the text.
- The 80-line NAT ruleset of the egress script is modelled as 80 indexed literal lines. Only its position after the guard is proved; its content is not analysed.
- `AclTypes.ValidateRuleCreate`: the `is-cidr` library is a parameter `isCidr`. Its definition of a valid CIDR is not modelled.
- `AclTypes.ValidateRuleUpdate`: the CIDR check uses the same parameter. Zod's message texts, including the ports message, are reduced to the name of each failing field.
- `AclService.AclStore.UpdateRule`: an update with no fields succeeds with the rule unchanged. This model does not reproduce any error the database driver might raise for an empty set clause.
- `AclHelper.PublicEgressToggle`: it states that enabling public egress inserts the two lines. That a body without public egress contains neither line is not proved.
- `AclService.ApplyConfigUpdate`: `allowPublicEgress` and `exitNodeClientId` are carried through unchanged, but they have no column in the table definition.
  - `LazyConfig` gives them false and none.
  - `exitNodeClientId` is validated and stored but used by nothing in this core.
- Creation and update timestamps are not modelled, nor are foreign-key cascades from interfaces to rules and configurations.
- The HTTP handlers and debug logging that surround the core are not modelled.
- Promise sequencing and concurrent hook runs are not modelled.
- The client table (`ClientType`) is not part of this model. A client is reduced to the fields the egress code reads: id, name, enabled, address and the two egress settings.
- `Strings.IsSpace`: it covers the JavaScript white-space and line-terminator characters that `trim` removes, as single UTF-16 code units. Surrogate pairs are outside it.
- Schema columns with no behaviour of their own (`sourceCidr`, `destinationCidr`, `ports` and `description` as text) are plain datatype fields. The column type of the rule row is `AclSchema.AclRule`.
