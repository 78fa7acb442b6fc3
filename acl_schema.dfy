/**
 * The rows of the two ACL tables (`acl_rules_table`, `acl_config_table`), their keys and
 * their column defaults. Timestamps (`created_at`, `updated_at`) are not modelled.
 */
module AclSchema {
  import opened Wrappers

  /** The three protocols a rule can name; the column stores their lower-case names. */
  datatype Protocol = Tcp | Udp | Icmp

  function ProtocolName(p: Protocol): string {
    match p
    case Tcp => "tcp"
    case Udp => "udp"
    case Icmp => "icmp"
  }

  /** What the forward chain does with traffic no rule accepts. */
  datatype Policy = Drop | Accept

  function PolicyName(p: Policy): string {
    match p
    case Drop => "drop"
    case Accept => "accept"
  }

  /**
   * One ACL rule. `id` is the auto-increment primary key, `interfaceId` the owning
   * interface (never null), `ports` a non-null text, `description` nullable.
   */
  datatype AclRule = AclRule(
    id: int,
    interfaceId: string,
    sourceCidr: string,
    destinationCidr: string,
    protocol: Protocol,
    ports: string,
    enabled: bool,
    description: Option<string>)

  /**
   * The ACL configuration of one interface, keyed by the interface name (`id`).
   * `allowPublicEgress` and `exitNodeClientId` have no column in the table declaration
   * but are read by the ruleset compiler and written by the config update, so they are
   * carried here as fields.
   */
  datatype AclConfig = AclConfig(
    id: string,
    enabled: bool,
    defaultPolicy: Policy,
    filterTableName: string,
    allowPublicEgress: bool,
    exitNodeClientId: Option<int>)

  /** Column defaults. */
  const RuleEnabledDefault := true
  const ConfigEnabledDefault := false
  const PolicyDefault := Drop
  const FilterTableDefault := "wg_acl_v4"

  /** A configuration row inserted with every defaulted column left to its default. */
  function ConfigWithColumnDefaults(interfaceId: string, allowPublicEgress: bool, exitNodeClientId: Option<int>): (c: AclConfig)
    ensures c.id == interfaceId
    ensures !c.enabled && c.defaultPolicy == Drop && PolicyName(c.defaultPolicy) == "drop"
    ensures c.filterTableName == "wg_acl_v4"
  {
    AclConfig(interfaceId, ConfigEnabledDefault, PolicyDefault, FilterTableDefault, allowPublicEgress, exitNodeClientId)
  }
}
