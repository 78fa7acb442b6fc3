/**
 * The ACL repository service over an in-memory copy of its two tables: rules keyed by
 * their auto-increment id, configurations keyed by interface name. Each database call
 * becomes a read or an update of the store's fields; a thrown error becomes `Failure`.
 */
module AclService {
  import opened Wrappers
  import opened Numerals
  import opened AclSchema
  import opened AclTypes

  /**
   * The rules of interface `ifc` among the ids below `n`, in ascending id order
   * (`enabledOnly` keeps only enabled ones): the rows a filtered query sorted by id returns.
   */
  function Listing(rules: map<int, AclRule>, n: int, ifc: string, enabledOnly: bool): seq<AclRule>
    decreases n
  {
    if n <= 1 then []
    else
      Listing(rules, n - 1, ifc, enabledOnly)
      + (if n - 1 in rules && rules[n - 1].interfaceId == ifc && (!enabledOnly || rules[n - 1].enabled)
         then [rules[n - 1]] else [])
  }

  /** The table invariant: every stored id is positive, below the next id, and is the row's own id. */
  predicate TableInvariant(rules: map<int, AclRule>, nextId: int) {
    nextId >= 1 && forall id :: id in rules ==> 1 <= id < nextId && rules[id].id == id
  }

  /** A listing holds exactly the matching rows with ids below `n`. */
  lemma {:induction false} ListingMembers(rules: map<int, AclRule>, n: int, ifc: string, enabledOnly: bool)
    requires forall id :: id in rules ==> 1 <= id && rules[id].id == id
    ensures forall r :: r in Listing(rules, n, ifc, enabledOnly) <==>
              r.id in rules && rules[r.id] == r && r.id < n && r.interfaceId == ifc && (!enabledOnly || r.enabled)
    decreases n
  {
    if n > 1 {
      ListingMembers(rules, n - 1, ifc, enabledOnly);
    }
  }

  /** A listing is strictly ascending by id, and every id is below `n`. */
  lemma {:induction false} ListingAscending(rules: map<int, AclRule>, n: int, ifc: string, enabledOnly: bool)
    requires forall id :: id in rules ==> rules[id].id == id
    ensures forall i :: 0 <= i < |Listing(rules, n, ifc, enabledOnly)| ==> Listing(rules, n, ifc, enabledOnly)[i].id < n
    ensures forall i, j :: 0 <= i < j < |Listing(rules, n, ifc, enabledOnly)| ==>
              Listing(rules, n, ifc, enabledOnly)[i].id < Listing(rules, n, ifc, enabledOnly)[j].id
    decreases n
  {
    if n > 1 {
      ListingAscending(rules, n - 1, ifc, enabledOnly);
    }
  }

  /** The enabled rules of a list, in order. */
  function EnabledOf(rs: seq<AclRule>): (e: seq<AclRule>)
    ensures |e| <= |rs|
    decreases |rs|
  {
    if |rs| == 0 then []
    else EnabledOf(rs[..|rs| - 1]) + (if rs[|rs| - 1].enabled then [rs[|rs| - 1]] else [])
  }

  /** The enabled listing is the full listing with the disabled rules taken out: a subsequence of it. */
  lemma {:induction false} EnabledListingIsFiltered(rules: map<int, AclRule>, n: int, ifc: string)
    ensures Listing(rules, n, ifc, true) == EnabledOf(Listing(rules, n, ifc, false))
    decreases n
  {
    if n > 1 {
      EnabledListingIsFiltered(rules, n - 1, ifc);
      var full := Listing(rules, n, ifc, false);
      var init := Listing(rules, n - 1, ifc, false);
      if n - 1 in rules && rules[n - 1].interfaceId == ifc {
        assert full == init + [rules[n - 1]];
        assert full[..|full| - 1] == init;
      } else {
        assert full == init;
      }
    }
  }

  /** Rows with ids at or above `n` do not affect the listing below `n`. */
  lemma {:induction false} ListingFrame(rules: map<int, AclRule>, n: int, ifc: string, enabledOnly: bool, k: int, r: AclRule)
    requires k >= n
    ensures Listing(rules[k := r], n, ifc, enabledOnly) == Listing(rules, n, ifc, enabledOnly)
    decreases n
  {
    if n > 1 {
      ListingFrame(rules, n - 1, ifc, enabledOnly, k, r);
    }
  }

  /** A rule inserted under the next id comes last in its interface's listing. */
  lemma CreatedRuleListedLast(rules: map<int, AclRule>, nextId: int, r: AclRule)
    requires TableInvariant(rules, nextId) && r.id == nextId
    ensures Listing(rules[nextId := r], nextId + 1, r.interfaceId, false) == Listing(rules, nextId, r.interfaceId, false) + [r]
    ensures forall ifc :: ifc != r.interfaceId ==>
              Listing(rules[nextId := r], nextId + 1, ifc, false) == Listing(rules, nextId, ifc, false)
  {
    ListingFrame(rules, nextId, r.interfaceId, false, nextId, r);
    forall ifc | ifc != r.interfaceId
      ensures Listing(rules[nextId := r], nextId + 1, ifc, false) == Listing(rules, nextId, ifc, false)
    {
      ListingFrame(rules, nextId, ifc, false, nextId, r);
    }
  }

  /** The fields an update supplies replace the stored ones; the id and absent fields stay. */
  function ApplyPatch(r: AclRule, p: RulePatch): (u: AclRule)
    ensures u.id == r.id
    ensures p.interfaceId.None? ==> u.interfaceId == r.interfaceId
    ensures p.interfaceId.Some? ==> u.interfaceId == p.interfaceId.value
    ensures p.sourceCidr.None? ==> u.sourceCidr == r.sourceCidr
    ensures p.sourceCidr.Some? ==> u.sourceCidr == p.sourceCidr.value
    ensures p.destinationCidr.None? ==> u.destinationCidr == r.destinationCidr
    ensures p.destinationCidr.Some? ==> u.destinationCidr == p.destinationCidr.value
    ensures p.protocol.None? ==> u.protocol == r.protocol
    ensures p.protocol.Some? ==> u.protocol == p.protocol.value
    ensures p.ports.None? ==> u.ports == r.ports
    ensures p.ports.Some? ==> u.ports == p.ports.value
    ensures p.enabled.None? ==> u.enabled == r.enabled
    ensures p.enabled.Some? ==> u.enabled == p.enabled.value
    ensures p.description.Some? ==> u.description == p.description
    ensures p.description.None? ==> u.description == r.description
  {
    AclRule(
      r.id,
      p.interfaceId.GetOr(r.interfaceId),
      p.sourceCidr.GetOr(r.sourceCidr),
      p.destinationCidr.GetOr(r.destinationCidr),
      p.protocol.GetOr(r.protocol),
      p.ports.GetOr(r.ports),
      p.enabled.GetOr(r.enabled),
      if p.description.Some? then p.description else r.description)
  }

  /** An update that supplies nothing leaves the rule as it is. */
  lemma ApplyNoChanges(r: AclRule)
    ensures ApplyPatch(r, NoChanges) == r
  {
  }

  /** Applying the same update twice is applying it once. */
  lemma ApplyPatchIdempotent(r: AclRule, p: RulePatch)
    ensures ApplyPatch(ApplyPatch(r, p), p) == ApplyPatch(r, p)
  {
  }

  /** The row the update inserts when an interface has no configuration yet. */
  function LazyConfig(interfaceId: string): (c: AclConfig)
    ensures c == ConfigWithColumnDefaults(interfaceId, c.allowPublicEgress, c.exitNodeClientId)
  {
    AclConfig(interfaceId, false, Drop, "wg_acl_v4", false, None)
  }

  /** A config update sets every field it carries and keeps the key. */
  function ApplyConfigUpdate(c: AclConfig, d: AclConfigUpdate): (u: AclConfig)
    ensures u.id == c.id
    ensures u.enabled == d.enabled && u.defaultPolicy == d.defaultPolicy && u.filterTableName == d.filterTableName
    ensures u.allowPublicEgress == d.allowPublicEgress && u.exitNodeClientId == d.exitNodeClientId
  {
    AclConfig(c.id, d.enabled, d.defaultPolicy, d.filterTableName, d.allowPublicEgress, d.exitNodeClientId)
  }

  function RuleNotFound(id: int): string {
    "ACL rule " + IntToString(id) + " not found"
  }

  function ConfigNotFound(interfaceId: string): string {
    "ACL config for " + interfaceId + " not found"
  }

  class AclStore {
    var rules: map<int, AclRule>
    var configs: map<string, AclConfig>
    /** The id the next insert receives: one more than any id ever handed out. */
    var nextId: int

    ghost predicate Valid()
      reads this
    {
      && TableInvariant(rules, nextId)
      && forall k :: k in configs ==> configs[k].id == k
    }

    constructor()
      ensures Valid()
      ensures rules == map[] && configs == map[] && nextId == 1
    {
      rules := map[];
      configs := map[];
      nextId := 1;
    }

    /** The rules of one interface, ascending by id. */
    method GetRules(interfaceId: string) returns (rs: seq<AclRule>)
      requires Valid()
      ensures rs == Listing(rules, nextId, interfaceId, false)
      ensures forall r :: r in rs <==> r.id in rules && rules[r.id] == r && r.interfaceId == interfaceId
      ensures forall i, j :: 0 <= i < j < |rs| ==> rs[i].id < rs[j].id
    {
      rs := Listing(rules, nextId, interfaceId, false);
      ListingMembers(rules, nextId, interfaceId, false);
      ListingAscending(rules, nextId, interfaceId, false);
    }

    /** The enabled rules of one interface, ascending by id: what the ruleset compiler is given. */
    method GetEnabledRules(interfaceId: string) returns (rs: seq<AclRule>)
      requires Valid()
      ensures rs == EnabledOf(Listing(rules, nextId, interfaceId, false))
      ensures forall r :: r in rs <==> r.id in rules && rules[r.id] == r && r.interfaceId == interfaceId && r.enabled
      ensures forall i, j :: 0 <= i < j < |rs| ==> rs[i].id < rs[j].id
    {
      rs := Listing(rules, nextId, interfaceId, true);
      ListingMembers(rules, nextId, interfaceId, true);
      ListingAscending(rules, nextId, interfaceId, true);
      EnabledListingIsFiltered(rules, nextId, interfaceId);
    }

    /** One rule by id, or the not-found error. */
    method GetRule(id: int) returns (r: Result<AclRule, string>)
      ensures id in rules ==> r == Success(rules[id])
      ensures id !in rules ==> r == Failure("ACL rule " + IntToString(id) + " not found")
    {
      if id in rules {
        r := Success(rules[id]);
      } else {
        r := Failure(RuleNotFound(id));
      }
    }

    /** Insert a validated rule under a fresh id and return the stored row. */
    method CreateRule(data: AclRuleCreate) returns (r: AclRule)
      requires Valid()
      modifies this
      ensures Valid()
      ensures r.id == old(nextId) && r.id !in old(rules) && nextId == old(nextId) + 1
      ensures r == AclRule(r.id, data.interfaceId, data.sourceCidr, data.destinationCidr, data.protocol,
                           data.ports, data.enabled, data.description)
      ensures rules == old(rules)[r.id := r] && configs == old(configs)
      ensures GetRulesAfterCreate(old(rules), old(nextId), rules, nextId, r)
    {
      r := AclRule(nextId, data.interfaceId, data.sourceCidr, data.destinationCidr, data.protocol,
                   data.ports, data.enabled, data.description);
      CreatedRuleListedLast(rules, nextId, r);
      rules := rules[nextId := r];
      nextId := nextId + 1;
    }

    /** Update the supplied fields of one rule, or report it missing and change nothing. */
    method UpdateRule(id: int, patch: RulePatch) returns (r: Result<AclRule, string>)
      requires Valid()
      modifies this
      ensures Valid()
      ensures id in old(rules) ==> r == Success(ApplyPatch(old(rules)[id], patch)) && rules == old(rules)[id := r.value]
      ensures id !in old(rules) ==> r == Failure("ACL rule " + IntToString(id) + " not found") && rules == old(rules)
      ensures configs == old(configs) && nextId == old(nextId)
    {
      if id in rules {
        var u := ApplyPatch(rules[id], patch);
        rules := rules[id := u];
        r := Success(u);
      } else {
        r := Failure(RuleNotFound(id));
      }
    }

    /** Remove one rule and return it, or report it missing and change nothing. */
    method DeleteRule(id: int) returns (r: Result<AclRule, string>)
      requires Valid()
      modifies this
      ensures Valid()
      ensures id in old(rules) ==> r == Success(old(rules)[id]) && rules == old(rules) - {id}
      ensures id !in old(rules) ==> r == Failure("ACL rule " + IntToString(id) + " not found") && rules == old(rules)
      ensures configs == old(configs) && nextId == old(nextId)
    {
      if id in rules {
        r := Success(rules[id]);
        rules := rules - {id};
      } else {
        r := Failure(RuleNotFound(id));
      }
    }

    /** The configuration of an interface, created with the defaults on first access. */
    method GetConfig(interfaceId: string) returns (c: AclConfig)
      requires Valid()
      modifies this
      ensures Valid()
      ensures interfaceId in old(configs) ==> c == old(configs)[interfaceId] && configs == old(configs)
      ensures interfaceId !in old(configs) ==> c == LazyConfig(interfaceId) && configs == old(configs)[interfaceId := c]
      ensures interfaceId in configs && configs[interfaceId] == c
      ensures rules == old(rules) && nextId == old(nextId)
    {
      if interfaceId in configs {
        c := configs[interfaceId];
      } else {
        c := LazyConfig(interfaceId);
        configs := configs[interfaceId := c];
      }
    }

    /** Overwrite the configuration of an interface, or report it missing without creating it. */
    method UpdateConfig(interfaceId: string, data: AclConfigUpdate) returns (r: Result<AclConfig, string>)
      requires Valid()
      modifies this
      ensures Valid()
      ensures interfaceId in old(configs) ==>
                r == Success(ApplyConfigUpdate(old(configs)[interfaceId], data)) && configs == old(configs)[interfaceId := r.value]
      ensures interfaceId !in old(configs) ==>
                r == Failure("ACL config for " + interfaceId + " not found") && configs == old(configs)
      ensures rules == old(rules) && nextId == old(nextId)
    {
      if interfaceId in configs {
        var u := ApplyConfigUpdate(configs[interfaceId], data);
        configs := configs[interfaceId := u];
        r := Success(u);
      } else {
        r := Failure(ConfigNotFound(interfaceId));
      }
    }
  }

  /** After a create, the new rule is the last of its interface's listing and other listings are unchanged. */
  ghost predicate GetRulesAfterCreate(rules0: map<int, AclRule>, next0: int, rules1: map<int, AclRule>, next1: int, r: AclRule) {
    && Listing(rules1, next1, r.interfaceId, false) == Listing(rules0, next0, r.interfaceId, false) + [r]
    && forall ifc :: ifc != r.interfaceId ==> Listing(rules1, next1, ifc, false) == Listing(rules0, next0, ifc, false)
  }

  /** Reading a configuration twice inserts at most once: the second read finds the stored row. */
  method GetConfigTwice(store: AclStore, interfaceId: string) returns (c1: AclConfig, c2: AclConfig)
    requires store.Valid()
    modifies store
    ensures store.Valid()
    ensures c1 == c2
    ensures interfaceId in old(store.configs) ==> store.configs == old(store.configs)
    ensures interfaceId !in old(store.configs) ==> store.configs == old(store.configs)[interfaceId := LazyConfig(interfaceId)]
  {
    c1 := store.GetConfig(interfaceId);
    c2 := store.GetConfig(interfaceId);
  }
}
