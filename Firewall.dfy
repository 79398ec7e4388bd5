/** `ensure.firewall_allow`: the desired firewall rule as a request body,
    and the `schemafy` step that rewrites it, field by field, into the
    schema it is validated with against an existing rule. */
module Firewall {
  import opened Wrappers
  import opened Strings
  import opened Json

  /** The two directions the rule accepts. */
  predicate ValidDirection(direction: string)
  {
    direction == "ingress" || direction == "egress"
  }

  function Strs(ss: seq<string>): (r: seq<Value>)
    ensures |r| == |ss|
    ensures forall i :: 0 <= i < |ss| ==> r[i] == Str(ss[i])
  {
    seq(|ss|, i requires 0 <= i < |ss| => Str(ss[i]))
  }

  /** `[str(port)] if port else []`: no port, or port 0, gives no ports. */
  function PortList(port: Option<nat>): (r: seq<Value>)
    ensures r == [] <==> port.None? || port.value == 0
    ensures r != [] ==> r == [Str(Decimal(port.value))]
  {
    if port.Some? && port.value != 0 then [Str(Decimal(port.value))] else []
  }

  /** The request body, keys in the order the source writes them; refused
      (the direction assertion) unless the direction is `ingress` or `egress`. */
  function AllowConfig(direction: string, description: string, priority: int, sourceRanges: seq<string>,
                       networkTags: seq<string>, port: Option<nat>, proto: string, ruleName: string): (r: Option<Entries>)
    ensures r.Some? <==> ValidDirection(direction)
    ensures r.Some? ==> Keys(r.value) == ["direction", "description", "priority", "sourceRanges", "allowed", "targetTags", "name"]
  {
    if !ValidDirection(direction) then None
    else Some([ ("direction", Str(Upper(direction))),
                ("description", Str(description)),
                ("priority", Int(priority)),
                ("sourceRanges", List(Strs(sourceRanges))),
                ("allowed", List([Dict([("IPProtocol", Str(proto)), ("ports", List(PortList(port)))])])),
                ("targetTags", List(Strs(networkTags))),
                ("name", Str(ruleName)) ])
  }

  /** The schema that lets an existing rule omit its ports:
      `(':optional', list, [])`. */
  const OptionalEmptyList: Value := Tuple([Str(":optional"), TypeRef("list"), List([])])

  /** What `schemafy` needs to find in the config it rewrites. */
  predicate Schemafiable(config: Entries)
  {
    && DistinctKeys(config)
    && Get(config, "sourceRanges").Some? && (Get(config, "sourceRanges").value.List? || Get(config, "sourceRanges").value.Tuple?)
    && Get(config, "allowed").Some? && (Get(config, "allowed").value.List? || Get(config, "allowed").value.Tuple?)
    && |Get(config, "allowed").value.items| > 0
    && Get(config, "allowed").value.items[0].Dict?
    && DistinctKeys(Get(config, "allowed").value.items[0].entries)
    && Get(config, "targetTags").Some?
  }

  /** `config['allowed'][0].get('ports') or (':optional', list, [])`. */
  function PortsSchema(rule: Entries): (v: Value)
    ensures Get(rule, "ports").Some? && Truthy(Get(rule, "ports").value) ==> v == Get(rule, "ports").value
    ensures Get(rule, "ports").None? || !Truthy(Get(rule, "ports").value) ==> v == OptionalEmptyList
  {
    var p := Get(rule, "ports");
    if p.Some? && Truthy(p.value) then p.value else OptionalEmptyList
  }

  /** The rule list after `schemafy`: a tuple whose first rule has its
      ports replaced by `PortsSchema`. */
  function AllowedSchema(allowed: seq<Value>): Value
    requires |allowed| > 0 && allowed[0].Dict?
  {
    var rule := allowed[0].entries;
    Tuple([Dict(Put(rule, "ports", PortsSchema(rule)))] + allowed[1..])
  }

  /** `config['targetTags'] or None`. */
  function TagsSchema(tags: Value): (v: Value)
    ensures Truthy(tags) ==> v == tags
    ensures !Truthy(tags) ==> v == Null
  {
    if Truthy(tags) then tags else Null
  }

  /** The config after the four assignments of `schemafy`, in their order. */
  function Schemafied(config: Entries): Entries
    requires Schemafiable(config)
  {
    var c1 := Put(config, "sourceRanges", ToTuple(Get(config, "sourceRanges").value));
    var c2 := Put(c1, "allowed", ToTuple(Get(config, "allowed").value));
    var c3 := Put(c2, "targetTags", TagsSchema(Get(config, "targetTags").value));
    Put(c3, "allowed", AllowedSchema(Get(config, "allowed").value.items))
  }

  /** The nested `schemafy` of `firewall_allow`, one dict assignment at a time. */
  method Schemafy(config: Entries) returns (c: Entries)
    requires Schemafiable(config)
    ensures c == Schemafied(config)
  {
    c := config;
    ghost var ranges := ToTuple(Get(config, "sourceRanges").value);
    c := Put(c, "sourceRanges", ToTuple(Get(c, "sourceRanges").value));
    GetPut(config, "sourceRanges", ranges, "allowed");
    GetPut(config, "sourceRanges", ranges, "targetTags");
    PutKeepsDistinct(config, "sourceRanges", ranges);
    ghost var c1 := c;
    var allowed := ToTuple(Get(c, "allowed").value);
    c := Put(c, "allowed", allowed);
    GetPut(c1, "allowed", allowed, "targetTags");
    c := Put(c, "targetTags", TagsSchema(Get(c, "targetTags").value));
    // `config['allowed'][0]['ports'] = ...` writes into the first rule of the tuple
    c := Put(c, "allowed", AllowedSchema(allowed.items));
  }

  /** `schemafy` keeps every key in place, and the result is still a dict. */
  lemma SchemafiedKeys(config: Entries)
    requires Schemafiable(config)
    ensures DistinctKeys(Schemafied(config))
    ensures Keys(Schemafied(config)) == Keys(config)
  {
    var ranges := ToTuple(Get(config, "sourceRanges").value);
    var allowed := ToTuple(Get(config, "allowed").value);
    var tags := TagsSchema(Get(config, "targetTags").value);
    var final := AllowedSchema(Get(config, "allowed").value.items);
    var c1 := Put(config, "sourceRanges", ranges);
    var c2 := Put(c1, "allowed", allowed);
    var c3 := Put(c2, "targetTags", tags);
    PutKeepsDistinct(config, "sourceRanges", ranges);
    PutKeepsDistinct(c1, "allowed", allowed);
    PutKeepsDistinct(c2, "targetTags", tags);
    PutKeepsDistinct(c3, "allowed", final);
    GetInKeys(config, "sourceRanges");
    GetInKeys(config, "allowed");
    GetInKeys(config, "targetTags");
  }

  /** `schemafy` turns the ranges and the rules into tuples, replaces the
      first rule's empty ports by the optional-empty-list schema, and empty
      target tags by `None`. */
  lemma SchemafiedFields(config: Entries)
    requires Schemafiable(config)
    ensures Get(Schemafied(config), "sourceRanges") == Some(Tuple(Get(config, "sourceRanges").value.items))
    ensures Get(Schemafied(config), "allowed") == Some(AllowedSchema(Get(config, "allowed").value.items))
    ensures Get(Schemafied(config), "targetTags") == Some(TagsSchema(Get(config, "targetTags").value))
  {
    var ranges := ToTuple(Get(config, "sourceRanges").value);
    var allowed := ToTuple(Get(config, "allowed").value);
    var tags := TagsSchema(Get(config, "targetTags").value);
    var final := AllowedSchema(Get(config, "allowed").value.items);
    var c1 := Put(config, "sourceRanges", ranges);
    var c2 := Put(c1, "allowed", allowed);
    var c3 := Put(c2, "targetTags", tags);
    PutKeepsDistinct(config, "sourceRanges", ranges);
    PutKeepsDistinct(c1, "allowed", allowed);
    PutKeepsDistinct(c2, "targetTags", tags);
    GetPut(c3, "allowed", final, "allowed");
    GetPut(c3, "allowed", final, "targetTags");
    GetPut(c2, "targetTags", tags, "targetTags");
    GetPut(c3, "allowed", final, "sourceRanges");
    GetPut(c2, "targetTags", tags, "sourceRanges");
    GetPut(c1, "allowed", allowed, "sourceRanges");
    GetPut(config, "sourceRanges", ranges, "sourceRanges");
  }

  /** Every key `schemafy` does not assign reads as before. */
  lemma SchemafiedOther(config: Entries, k: string)
    requires Schemafiable(config)
    requires k != "sourceRanges" && k != "allowed" && k != "targetTags"
    ensures Get(Schemafied(config), k) == Get(config, k)
  {
    var ranges := ToTuple(Get(config, "sourceRanges").value);
    var allowed := ToTuple(Get(config, "allowed").value);
    var tags := TagsSchema(Get(config, "targetTags").value);
    var c1 := Put(config, "sourceRanges", ranges);
    var c2 := Put(c1, "allowed", allowed);
    var c3 := Put(c2, "targetTags", tags);
    PutKeepsDistinct(config, "sourceRanges", ranges);
    PutKeepsDistinct(c1, "allowed", allowed);
    PutKeepsDistinct(c2, "targetTags", tags);
    GetPut(c3, "allowed", AllowedSchema(Get(config, "allowed").value.items), k);
    GetPut(c2, "targetTags", tags, k);
    GetPut(c1, "allowed", allowed, k);
    GetPut(config, "sourceRanges", ranges, k);
  }

  /** The config `firewall_allow` builds is a dict: no key repeats. */
  lemma AllowConfigDistinct(direction: string, description: string, priority: int, sourceRanges: seq<string>,
                            networkTags: seq<string>, port: Option<nat>, proto: string, ruleName: string)
    requires ValidDirection(direction)
    ensures DistinctKeys(AllowConfig(direction, description, priority, sourceRanges, networkTags, port, proto, ruleName).value)
  {
    var config := AllowConfig(direction, description, priority, sourceRanges, networkTags, port, proto, ruleName).value;
    var ks := Keys(config);
    forall i, j | 0 <= i < j < |config| ensures config[i].0 != config[j].0 {
      assert ks[i] == config[i].0 && ks[j] == config[j].0;
    }
  }

  /** The body `firewall_allow` builds holds the upper-cased direction, the
      ranges, one allowed rule, the target tags and the name. */
  lemma AllowConfigFields(direction: string, description: string, priority: int, sourceRanges: seq<string>,
                          networkTags: seq<string>, port: Option<nat>, proto: string, ruleName: string)
    requires ValidDirection(direction)
    ensures var config := AllowConfig(direction, description, priority, sourceRanges, networkTags, port, proto, ruleName).value;
      && Get(config, "direction") == Some(Str(Upper(direction)))
      && Get(config, "description") == Some(Str(description))
      && Get(config, "priority") == Some(Int(priority))
      && Get(config, "sourceRanges") == Some(List(Strs(sourceRanges)))
      && Get(config, "allowed") == Some(List([Dict([("IPProtocol", Str(proto)), ("ports", List(PortList(port)))])]))
      && Get(config, "targetTags") == Some(List(Strs(networkTags)))
      && Get(config, "name") == Some(Str(ruleName))
  {
    var config := AllowConfig(direction, description, priority, sourceRanges, networkTags, port, proto, ruleName).value;
    AllowConfigDistinct(direction, description, priority, sourceRanges, networkTags, port, proto, ruleName);
    GetEntry(config, 0);
    GetEntry(config, 1);
    GetEntry(config, 2);
    GetEntry(config, 3);
    GetEntry(config, 4);
    GetEntry(config, 5);
    GetEntry(config, 6);
  }

  lemma RuleDistinct(proto: string, port: Option<nat>)
    ensures DistinctKeys([("IPProtocol", Str(proto)), ("ports", List(PortList(port)))])
  {
  }

  /** `schemafy` finds in that body everything it rewrites. */
  lemma AllowConfigSchemafiable(direction: string, description: string, priority: int, sourceRanges: seq<string>,
                                networkTags: seq<string>, port: Option<nat>, proto: string, ruleName: string)
    requires ValidDirection(direction)
    ensures Schemafiable(AllowConfig(direction, description, priority, sourceRanges, networkTags, port, proto, ruleName).value)
  {
    AllowConfigDistinct(direction, description, priority, sourceRanges, networkTags, port, proto, ruleName);
    AllowConfigFields(direction, description, priority, sourceRanges, networkTags, port, proto, ruleName);
    RuleDistinct(proto, port);
    var allowed := List([Dict([("IPProtocol", Str(proto)), ("ports", List(PortList(port)))])]);
    assert allowed.items[0].Dict? && |allowed.items| > 0;
  }

  /** What is validated against an existing rule: the port, when one is
      given, as the one-element list of its decimal string, and otherwise
      the optional-empty-list schema; the source ranges as a tuple. */
  lemma {:induction false} SchemafiedAllowConfig(direction: string, description: string, priority: int, sourceRanges: seq<string>,
                                                 networkTags: seq<string>, port: Option<nat>, proto: string, ruleName: string)
    requires ValidDirection(direction)
    ensures var config := AllowConfig(direction, description, priority, sourceRanges, networkTags, port, proto, ruleName).value;
      Schemafiable(config) &&
      var c := Schemafied(config);
      && Keys(c) == Keys(config)
      && Get(c, "sourceRanges") == Some(Tuple(Strs(sourceRanges)))
      && Get(c, "allowed") == Some(Tuple([Dict([
           ("IPProtocol", Str(proto)),
           ("ports", if port.Some? && port.value != 0 then List([Str(Decimal(port.value))]) else OptionalEmptyList)])]))
  {
    AllowConfigFields(direction, description, priority, sourceRanges, networkTags, port, proto, ruleName);
    AllowConfigSchemafiable(direction, description, priority, sourceRanges, networkTags, port, proto, ruleName);
    var config := AllowConfig(direction, description, priority, sourceRanges, networkTags, port, proto, ruleName).value;
    SchemafiedKeys(config);
    SchemafiedFields(config);
    RuleSchema(proto, port);
  }

  /** After `schemafy`, no target tags are validated as `None`; the
      direction and the name are validated as built. */
  lemma {:induction false} SchemafiedAllowTags(direction: string, description: string, priority: int, sourceRanges: seq<string>,
                                               networkTags: seq<string>, port: Option<nat>, proto: string, ruleName: string)
    requires ValidDirection(direction)
    ensures var config := AllowConfig(direction, description, priority, sourceRanges, networkTags, port, proto, ruleName).value;
      Schemafiable(config) &&
      var c := Schemafied(config);
      && Get(c, "targetTags") == Some(if networkTags == [] then Null else List(Strs(networkTags)))
      && Get(c, "direction") == Some(Str(Upper(direction)))
      && Get(c, "name") == Some(Str(ruleName))
  {
    AllowConfigFields(direction, description, priority, sourceRanges, networkTags, port, proto, ruleName);
    AllowConfigSchemafiable(direction, description, priority, sourceRanges, networkTags, port, proto, ruleName);
    var config := AllowConfig(direction, description, priority, sourceRanges, networkTags, port, proto, ruleName).value;
    SchemafiedFields(config);
    TagsSchemaOfList(networkTags);
    SchemafiedOther(config, "direction");
    SchemafiedOther(config, "name");
  }

  /** `tags or None` for the list of target tags. */
  lemma TagsSchemaOfList(ss: seq<string>)
    ensures TagsSchema(List(Strs(ss))) == if ss == [] then Null else List(Strs(ss))
  {
    assert |Strs(ss)| == |ss|;
  }

  /** The single rule of the body, after its ports are schemafied. */
  lemma RuleSchema(proto: string, port: Option<nat>)
    ensures AllowedSchema([Dict([("IPProtocol", Str(proto)), ("ports", List(PortList(port)))])]) ==
      Tuple([Dict([("IPProtocol", Str(proto)),
                   ("ports", if port.Some? && port.value != 0 then List([Str(Decimal(port.value))]) else OptionalEmptyList)])])
  {
    var rule := [("IPProtocol", Str(proto)), ("ports", List(PortList(port)))];
    assert Get(rule, "ports") == Some(List(PortList(port)));
    assert "ports" in Keys(rule) by { assert Keys(rule)[1] == "ports"; }
    var rule' := Put(rule, "ports", PortsSchema(rule));
    assert rule'[0] == rule[0] && rule'[1] == ("ports", PortsSchema(rule));
    assert rule' == [("IPProtocol", Str(proto)), ("ports", PortsSchema(rule))];
    assert PortsSchema(rule) == if port.Some? && port.value != 0 then List([Str(Decimal(port.value))]) else OptionalEmptyList;
    assert [Dict(rule)][1..] == [];
  }
}
