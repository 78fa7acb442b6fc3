/**
 * The validation schemas of the ACL repository: the port-list validator, the protocol and
 * policy enumerations, and the field constraints and defaults of the rule-create,
 * rule-update and config-update schemas. CIDR validity comes from a library and is a
 * parameter `isCidr` here (true exactly when the library reports a version other than 0).
 */
module AclTypes {
  import opened Wrappers
  import opened Strings
  import opened Numerals
  import opened AclSchema

  const MinPort := 1
  const MaxPort := 65535

  /** The protocol enumeration: exactly `tcp`, `udp` or `icmp`. */
  function ParseProtocol(s: string): (r: Option<Protocol>)
    ensures r.Some? <==> s == "tcp" || s == "udp" || s == "icmp"
    ensures r.Some? ==> ProtocolName(r.value) == s
  {
    if s == "tcp" then Some(Tcp)
    else if s == "udp" then Some(Udp)
    else if s == "icmp" then Some(Icmp)
    else None
  }

  lemma ParseProtocolName(p: Protocol)
    ensures ParseProtocol(ProtocolName(p)) == Some(p)
  {
  }

  /** The default-policy enumeration: exactly `drop` or `accept`. */
  function ParsePolicy(s: string): (r: Option<Policy>)
    ensures r.Some? <==> s == "drop" || s == "accept"
    ensures r.Some? ==> PolicyName(r.value) == s
  {
    if s == "drop" then Some(Drop)
    else if s == "accept" then Some(Accept)
    else None
  }

  lemma ParsePolicyName(p: Policy)
    ensures ParsePolicy(PolicyName(p)) == Some(p)
  {
  }

  /** The regular expression `^\d+$`. */
  predicate IsDigits(t: string) {
    |t| > 0 && AllDecimalDigits(t)
  }

  /** The regular expression `^\d+-\d+$`: digits, one dash, digits. */
  predicate IsRange(t: string) {
    exists i :: 0 < i < |t| && t[i] == '-' && IsDigits(t[..i]) && IsDigits(t[i + 1..])
  }

  /** `parseInt(t, 10)` of a digit string. */
  function ParseDecimal(t: string): nat {
    FromBase(t, 10)
  }

  /** One trimmed token of a port list: a single port or an ascending range of ports. */
  predicate PortTokenValid(t: string) {
    if IsDigits(t) then
      MinPort <= ParseDecimal(t) <= MaxPort
    else if IsRange(t) then
      var bounds := Split(t, '-');
      if |bounds| < 2 then false
      else
        var start, end := ParseDecimal(bounds[0]), ParseDecimal(bounds[1]);
        start >= MinPort && end <= MaxPort && start < end
    else false
  }

  /** The port-list validator: empty, or every comma-separated token valid once trimmed. */
  predicate PortsValid(v: string) {
    v == "" || (var parts := Split(v, ','); forall k :: 0 <= k < |parts| ==> PortTokenValid(Trim(parts[k])))
  }

  /** The empty list is accepted; nothing ties it to a protocol. */
  lemma EmptyPortsValid()
    ensures PortsValid("")
  {
  }

  lemma DigitsHaveNoDash(t: string)
    requires AllDecimalDigits(t)
    ensures '-' !in t && ',' !in t
  {
  }

  lemma TrimUnspaced(s: string)
    requires |s| > 0 && !IsSpace(s[0]) && !IsSpace(s[|s| - 1])
    ensures Trim(s) == s
  {
    assert TrimStart(s) == s;
  }

  /** A list of two non-empty pieces is valid iff both pieces are. */
  lemma PortsValidConcat(a: string, b: string)
    requires a != "" && b != ""
    ensures PortsValid(a + "," + b) <==> PortsValid(a) && PortsValid(b)
  {
    SplitConcat(a, b, ',');
    assert a + "," + b == a + [','] + b;
    var pa, pb := Split(a, ','), Split(b, ',');
    var ps := pa + pb;
    assert forall k :: 0 <= k < |pa| ==> ps[k] == pa[k];
    assert forall k :: 0 <= k < |pb| ==> ps[|pa| + k] == pb[k];
    if forall k :: 0 <= k < |pa| ==> PortTokenValid(Trim(pa[k])) {
      if forall k :: 0 <= k < |pb| ==> PortTokenValid(Trim(pb[k])) {
        forall k | 0 <= k < |ps|
          ensures PortTokenValid(Trim(ps[k]))
        {
          if k >= |pa| {
            assert ps[k] == pb[k - |pa|];
          }
        }
      }
    }
  }

  /** `n` written in decimal is a valid token iff it is a port number. */
  lemma DecimalTokenIff(n: nat)
    ensures PortTokenValid(Decimal(n)) <==> MinPort <= n <= MaxPort
  {
    FromToBase(n, 10);
  }

  /** Leading zeros are allowed: they do not change the value read. */
  lemma LeadingZeroToken(t: string)
    requires IsDigits(t)
    ensures PortTokenValid("0" + t) == PortTokenValid(t)
  {
    LeadingZero(t, 10);
    var z := "0" + t;
    assert forall i :: 1 <= i < |z| ==> z[i] == t[i - 1];
    assert IsDigits(z);
  }

  /** `a-b` over digit strings is valid iff `1 <= a`, `b <= 65535` and `a < b`. */
  lemma RangeTokenIff(a: string, b: string)
    requires IsDigits(a) && IsDigits(b)
    ensures PortTokenValid(a + "-" + b) <==>
              MinPort <= ParseDecimal(a) && ParseDecimal(b) <= MaxPort && ParseDecimal(a) < ParseDecimal(b)
  {
    var t := a + "-" + b;
    assert t[|a|] == '-';
    assert !IsDigits(t);
    assert t[..|a|] == a && t[|a| + 1..] == b;
    assert IsRange(t);
    DigitsHaveNoDash(a);
    DigitsHaveNoDash(b);
    assert t == a + ['-'] + b;
    SplitConcat(a, b, '-');
    SplitNoSeparator(a, '-');
    SplitNoSeparator(b, '-');
  }

  lemma OneSeparator(a: string, b: string, c: char)
    requires c !in a && c !in b
    ensures CountChar(a + [c] + b, c) == 1
  {
    CountCharAbsent(a, c);
    CountCharAbsent(b, c);
    CountCharAppend(a + [c], b, c);
    CountCharAppend(a, [c], c);
    assert [c][1..] == [];
  }

  /** A range token holds exactly one dash. */
  lemma RangeHasOneDash(t: string)
    requires IsRange(t)
    ensures CountChar(t, '-') == 1
  {
    var i :| 0 < i < |t| && t[i] == '-' && IsDigits(t[..i]) && IsDigits(t[i + 1..]);
    assert t == t[..i] + ['-'] + t[i + 1..];
    DigitsHaveNoDash(t[..i]);
    DigitsHaveNoDash(t[i + 1..]);
    OneSeparator(t[..i], t[i + 1..], '-');
  }

  /** A range token has exactly one dash, so tokens with two or more are rejected. */
  lemma ManyDashesRejected(t: string)
    requires CountChar(t, '-') >= 2
    ensures !PortTokenValid(t)
  {
    if IsDigits(t) {
      DigitsHaveNoDash(t);
      CountCharAbsent(t, '-');
    }
    if IsRange(t) {
      RangeHasOneDash(t);
    }
  }

  /** A token must start with a digit. */
  lemma NonDigitStartRejected(t: string)
    requires |t| > 0 && !IsDecimalDigit(t[0])
    ensures !PortTokenValid(t)
  {
  }

  /** A list that ends in a comma has an empty last token, which is rejected. */
  lemma TrailingCommaRejected(a: string)
    ensures !PortsValid(a + ",")
  {
    assert a + "," == a + [','] + "";
    SplitConcat(a, "", ',');
    var ps := Split(a + ",", ',');
    assert ps[|ps| - 1] == "";
    assert Trim("") == "";
  }

  /** A non-empty list of white space only is rejected. */
  lemma WhitespaceOnlyRejected(s: string)
    requires |s| > 0 && forall i :: 0 <= i < |s| ==> IsSpace(s[i])
    ensures !PortsValid(s)
  {
    SplitNoSeparator(s, ',');
    TrimEmptyIff(s);
    assert Split(s, ',')[0] == s;
    assert !PortTokenValid(Trim(s));
  }

  /** A single number is an accepted list iff it is a port number. */
  lemma DecimalListIff(n: nat)
    ensures PortsValid(Decimal(n)) <==> MinPort <= n <= MaxPort
  {
    var t := Decimal(n);
    DigitsHaveNoDash(t);
    assert !IsSpace(t[0]) && !IsSpace(t[|t| - 1]);
    SingleToken(t);
    DecimalTokenIff(n);
  }

  /** A single range `m-n` is an accepted list iff `1 <= m < n <= 65535`. */
  lemma RangeListIff(m: nat, n: nat)
    ensures PortsValid(Decimal(m) + "-" + Decimal(n)) <==> MinPort <= m && n <= MaxPort && m < n
  {
    var a, b := Decimal(m), Decimal(n);
    var t := a + "-" + b;
    DigitsHaveNoDash(a);
    DigitsHaveNoDash(b);
    assert t[0] == a[0] && t[|t| - 1] == b[|b| - 1];
    assert ',' !in t;
    SingleToken(t);
    FromToBase(m, 10);
    FromToBase(n, 10);
    RangeTokenIff(a, b);
  }

  /** `0` and `70000` are rejected: the value must be a port number. */
  lemma RejectedNumbers()
    ensures !PortsValid("0") && !PortsValid("70000")
  {
    RejectedZero();
    RejectedTooLarge();
  }

  lemma RejectedZero()
    ensures !PortsValid("0")
  {
    DecimalListIff(0);
    assert Decimal(0) == "0";
  }

  lemma RejectedTooLarge()
    ensures !PortsValid("70000")
  {
    DecimalListIff(70000);
    SeventyThousand();
  }

  lemma SeventyThousand()
    ensures Decimal(70000) == "70000"
  {
    DecimalStep(7, 0);
    DecimalStep(70, 0);
    DecimalStep(700, 0);
    DecimalStep(7000, 0);
    assert Decimal(7) == "7";
  }

  /** `10-5` and `5-5` are rejected: a range must ascend strictly. */
  lemma RejectedRanges()
    ensures !PortsValid("10-5") && !PortsValid("5-5")
  {
    RejectedDescending();
    RejectedEmptyRange();
  }

  lemma RejectedDescending()
    ensures !PortsValid("10-5")
  {
    RangeListIff(10, 5);
    assert Decimal(10) + "-" + Decimal(5) == "10-5";
  }

  lemma RejectedEmptyRange()
    ensures !PortsValid("5-5")
  {
    RangeListIff(5, 5);
    assert Decimal(5) + "-" + Decimal(5) == "5-5";
  }

  /** A single token that starts with something other than a digit is rejected. */
  lemma NonDigitStartListRejected(t: string)
    requires |t| > 0 && !IsDecimalDigit(t[0]) && !IsSpace(t[0]) && !IsSpace(t[|t| - 1]) && ',' !in t
    ensures !PortsValid(t)
  {
    SingleToken(t);
    NonDigitStartRejected(t);
  }

  /** `80,`, a blank, `-5`, `1-2-3` and `abc` are rejected. */
  lemma RejectedShapes()
    ensures !PortsValid("80,") && !PortsValid(" ")
    ensures !PortsValid("-5") && !PortsValid("1-2-3") && !PortsValid("abc")
  {
    RejectedTrailingComma();
    RejectedBlank();
    RejectedLeadingDash();
    RejectedLetters();
    TwoDashes();
  }

  lemma RejectedTrailingComma()
    ensures !PortsValid("80,")
  {
    TrailingCommaRejected("80");
    assert "80" + "," == "80,";
  }

  lemma RejectedBlank()
    ensures !PortsValid(" ")
  {
    WhitespaceOnlyRejected(" ");
  }

  lemma RejectedLeadingDash()
    ensures !PortsValid("-5")
  {
    NonDigitStartListRejected("-5");
  }

  lemma RejectedLetters()
    ensures !PortsValid("abc")
  {
    NonDigitStartListRejected("abc");
  }

  lemma TwoDashes()
    ensures !PortsValid("1-2-3")
  {
    var one, two, three := Decimal(1), Decimal(2), Decimal(3);
    var t := one + "-" + two + "-" + three;
    assert t == "1-2-3";
    CountCharAppend(one + "-" + two + "-", three, '-');
    CountCharAppend(one + "-" + two, "-", '-');
    CountCharAppend(one + "-", two, '-');
    CountCharAppend(one, "-", '-');
    DigitsHaveNoDash(one);
    DigitsHaveNoDash(two);
    DigitsHaveNoDash(three);
    CountCharAbsent(one, '-');
    CountCharAbsent(two, '-');
    CountCharAbsent(three, '-');
    ManyDashesRejected(t);
    assert t[0] == one[0] && t[|t| - 1] == three[|three| - 1];
    assert ',' !in t;
    SingleToken(t);
  }

  /** The documented single tokens `80` and `1-65535` are accepted. */
  lemma AcceptedTokens()
    ensures PortsValid("80") && PortsValid("1-65535")
  {
    DecimalListIff(80);
    assert Decimal(80) == "80";
    RangeListIff(1, 65535);
    assert Decimal(1) + "-" + Decimal(65535) == "1-65535";
  }

  /** The documented lists `80,443` and `22,80-90` are accepted. */
  lemma AcceptedLists()
    ensures PortsValid("80,443") && PortsValid("22,80-90")
  {
    DecimalListIff(80);
    DecimalListIff(443);
    var eighty, fourForty := Decimal(80), Decimal(443);
    assert eighty + "," + fourForty == "80,443";
    PortsValidConcat(eighty, fourForty);
    DecimalListIff(22);
    RangeListIff(80, 90);
    var twentyTwo, range := Decimal(22), Decimal(80) + "-" + Decimal(90);
    assert twentyTwo + "," + range == "22,80-90";
    PortsValidConcat(twentyTwo, range);
  }

  lemma SingleToken(t: string)
    requires ',' !in t && |t| > 0 && !IsSpace(t[0]) && !IsSpace(t[|t| - 1])
    ensures PortsValid(t) <==> PortTokenValid(t)
  {
    SplitNoSeparator(t, ',');
    TrimUnspaced(t);
    assert Split(t, ',')[0] == t;
  }

  /** The fields a schema can reject, for the error report. */
  datatype Field =
    | InterfaceIdField
    | SourceCidrField
    | DestinationCidrField
    | ProtocolField
    | PortsField
    | DefaultPolicyField
    | FilterTableNameField

  /** A rule-create request body; missing optional fields are `None`. */
  datatype RuleCreateInput = RuleCreateInput(
    interfaceId: string,
    sourceCidr: string,
    destinationCidr: string,
    protocol: string,
    ports: string,
    enabled: Option<bool>,
    description: Option<string>)

  /** What the create schema yields: the protocol parsed, `enabled` defaulted. */
  datatype AclRuleCreate = AclRuleCreate(
    interfaceId: string,
    sourceCidr: string,
    destinationCidr: string,
    protocol: Protocol,
    ports: string,
    enabled: bool,
    description: Option<string>)

  function Issue(ok: bool, f: Field): seq<Field> {
    if ok then [] else [f]
  }

  /** The report for the five rule fields, given whether each passed its check. */
  function RuleIssues(interfaceOk: bool, sourceOk: bool, destinationOk: bool, protocolOk: bool, portsOk: bool)
    : (r: seq<Field>)
    ensures r == [] <==> interfaceOk && sourceOk && destinationOk && protocolOk && portsOk
    ensures InterfaceIdField in r <==> !interfaceOk
    ensures SourceCidrField in r <==> !sourceOk
    ensures DestinationCidrField in r <==> !destinationOk
    ensures ProtocolField in r <==> !protocolOk
    ensures PortsField in r <==> !portsOk
    ensures DefaultPolicyField !in r && FilterTableNameField !in r
  {
    Issue(interfaceOk, InterfaceIdField)
    + Issue(sourceOk, SourceCidrField)
    + Issue(destinationOk, DestinationCidrField)
    + Issue(protocolOk, ProtocolField)
    + Issue(portsOk, PortsField)
  }

  /** The create schema: each field's constraint, every failing field reported in order. */
  function ValidateRuleCreate(i: RuleCreateInput, isCidr: string -> bool): (r: Result<AclRuleCreate, seq<Field>>)
    ensures r.Success? <==>
              && |i.interfaceId| >= 1 && isCidr(i.sourceCidr) && isCidr(i.destinationCidr)
              && (i.protocol == "tcp" || i.protocol == "udp" || i.protocol == "icmp")
              && PortsValid(i.ports)
    ensures r.Success? ==>
              && r.value.interfaceId == i.interfaceId
              && r.value.sourceCidr == i.sourceCidr && r.value.destinationCidr == i.destinationCidr
              && ProtocolName(r.value.protocol) == i.protocol && r.value.ports == i.ports
              && r.value.enabled == (i.enabled != Some(false)) && r.value.description == i.description
    ensures r.Failure? ==>
              && (InterfaceIdField in r.error <==> i.interfaceId == "")
              && (SourceCidrField in r.error <==> !isCidr(i.sourceCidr))
              && (DestinationCidrField in r.error <==> !isCidr(i.destinationCidr))
              && (ProtocolField in r.error <==> ParseProtocol(i.protocol).None?)
              && (PortsField in r.error <==> !PortsValid(i.ports))
              && DefaultPolicyField !in r.error && FilterTableNameField !in r.error
  {
    var issues := RuleIssues(|i.interfaceId| >= 1, isCidr(i.sourceCidr), isCidr(i.destinationCidr),
                             ParseProtocol(i.protocol).Some?, PortsValid(i.ports));
    if issues != [] then Failure(issues)
    else
      Success(AclRuleCreate(i.interfaceId, i.sourceCidr, i.destinationCidr, ParseProtocol(i.protocol).value,
                            i.ports, i.enabled.GetOr(RuleEnabledDefault), i.description))
  }

  /**
   * The ports check does not look at the protocol: an `icmp` rule with ports, or a `tcp`
   * rule without, validates exactly as the other protocols do.
   */
  lemma ProtocolIgnoredByPortsCheck(i: RuleCreateInput, isCidr: string -> bool, p: Protocol, q: Protocol)
    ensures ValidateRuleCreate(i.(protocol := ProtocolName(p)), isCidr).Success?
            == ValidateRuleCreate(i.(protocol := ProtocolName(q)), isCidr).Success?
  {
  }

  /** A rule-update request body: every field of the create body, each optional. */
  datatype RuleUpdateInput = RuleUpdateInput(
    interfaceId: Option<string>,
    sourceCidr: Option<string>,
    destinationCidr: Option<string>,
    protocol: Option<string>,
    ports: Option<string>,
    enabled: Option<bool>,
    description: Option<string>)

  /** The fields an update supplies; absent fields are left as they are. */
  datatype RulePatch = RulePatch(
    interfaceId: Option<string>,
    sourceCidr: Option<string>,
    destinationCidr: Option<string>,
    protocol: Option<Protocol>,
    ports: Option<string>,
    enabled: Option<bool>,
    description: Option<string>)

  const NoChanges := RulePatch(None, None, None, None, None, None, None)

  function OptionalOk<T>(o: Option<T>, ok: T -> bool): bool {
    o.None? || ok(o.value)
  }

  /**
   * The update schema is the create schema with every field optional. An absent `enabled`
   * stays absent: the optional wrapper skips the default.
   */
  function ValidateRuleUpdate(u: RuleUpdateInput, isCidr: string -> bool): (r: Result<RulePatch, seq<Field>>)
    ensures r.Success? <==>
              && (u.interfaceId.Some? ==> |u.interfaceId.value| >= 1)
              && (u.sourceCidr.Some? ==> isCidr(u.sourceCidr.value))
              && (u.destinationCidr.Some? ==> isCidr(u.destinationCidr.value))
              && (u.protocol.Some? ==> ParseProtocol(u.protocol.value).Some?)
              && (u.ports.Some? ==> PortsValid(u.ports.value))
    ensures r.Success? ==>
              && r.value.interfaceId == u.interfaceId && r.value.sourceCidr == u.sourceCidr
              && r.value.destinationCidr == u.destinationCidr && r.value.ports == u.ports
              && (r.value.protocol.Some? <==> u.protocol.Some?)
              && (u.protocol.Some? ==> ProtocolName(r.value.protocol.value) == u.protocol.value)
              && r.value.enabled == u.enabled && r.value.description == u.description
  {
    var issues :=
      Issue(OptionalOk(u.interfaceId, (s: string) => |s| >= 1), InterfaceIdField)
      + Issue(OptionalOk(u.sourceCidr, isCidr), SourceCidrField)
      + Issue(OptionalOk(u.destinationCidr, isCidr), DestinationCidrField)
      + Issue(OptionalOk(u.protocol, (s: string) => ParseProtocol(s).Some?), ProtocolField)
      + Issue(OptionalOk(u.ports, PortsValid), PortsField);
    if issues != [] then Failure(issues)
    else
      var protocol := if u.protocol.Some? then Some(ParseProtocol(u.protocol.value).value) else None;
      Success(RulePatch(u.interfaceId, u.sourceCidr, u.destinationCidr, protocol, u.ports, u.enabled, u.description))
  }

  /** An empty update body is accepted and changes nothing. */
  lemma EmptyUpdateAccepted(isCidr: string -> bool)
    ensures ValidateRuleUpdate(RuleUpdateInput(None, None, None, None, None, None, None), isCidr) == Success(NoChanges)
  {
  }

  /** An update that supplies every field is accepted exactly when the same create request is. */
  lemma FullUpdateMatchesCreate(i: RuleCreateInput, isCidr: string -> bool)
    requires i.enabled.Some?
    ensures var u := RuleUpdateInput(Some(i.interfaceId), Some(i.sourceCidr), Some(i.destinationCidr),
                                     Some(i.protocol), Some(i.ports), i.enabled, i.description);
            && ValidateRuleUpdate(u, isCidr).Success? == ValidateRuleCreate(i, isCidr).Success?
            && (ValidateRuleCreate(i, isCidr).Success? ==>
                  var c := ValidateRuleCreate(i, isCidr).value;
                  ValidateRuleUpdate(u, isCidr).value
                  == RulePatch(Some(c.interfaceId), Some(c.sourceCidr), Some(c.destinationCidr), Some(c.protocol),
                               Some(c.ports), Some(c.enabled), c.description))
  {
  }

  /** A config-update request body. `id` may be sent but is not an update field. */
  datatype ConfigUpdateInput = ConfigUpdateInput(
    id: Option<string>,
    enabled: bool,
    allowPublicEgress: bool,
    exitNodeClientId: Option<int>,
    defaultPolicy: string,
    filterTableName: string)

  /** The validated config update, without `id`. */
  datatype AclConfigUpdate = AclConfigUpdate(
    enabled: bool,
    allowPublicEgress: bool,
    exitNodeClientId: Option<int>,
    defaultPolicy: Policy,
    filterTableName: string)

  /** The config-update schema: a known policy and a non-empty table name. */
  function ValidateConfigUpdate(c: ConfigUpdateInput): (r: Result<AclConfigUpdate, seq<Field>>)
    ensures r.Success? <==> (c.defaultPolicy == "drop" || c.defaultPolicy == "accept") && c.filterTableName != ""
    ensures r.Success? ==>
              && r.value.enabled == c.enabled && r.value.allowPublicEgress == c.allowPublicEgress
              && r.value.exitNodeClientId == c.exitNodeClientId
              && PolicyName(r.value.defaultPolicy) == c.defaultPolicy && r.value.filterTableName == c.filterTableName
    ensures r.Failure? ==>
              && (DefaultPolicyField in r.error <==> ParsePolicy(c.defaultPolicy).None?)
              && (FilterTableNameField in r.error <==> c.filterTableName == "")
  {
    var issues :=
      Issue(ParsePolicy(c.defaultPolicy).Some?, DefaultPolicyField)
      + Issue(|c.filterTableName| >= 1, FilterTableNameField);
    if issues != [] then Failure(issues)
    else
      Success(AclConfigUpdate(c.enabled, c.allowPublicEgress, c.exitNodeClientId,
                              ParsePolicy(c.defaultPolicy).value, c.filterTableName))
  }
}
