/** The access rules of the standalone installer: the generated role cut down to a fixed profile. */
module RestrictedRules {

  datatype Rule = Rule(apiGroups: seq<string>, resources: seq<string>, resourceNames: seq<string>, verbs: seq<string>)

  /** A request for a verb on one named object of a resource. */
  datatype Request = Request(group: string, resource: string, verb: string, name: string)

  type Permissions = map<string, seq<string>>

  const READ_WRITE: seq<string> := ["get", "list", "watch", "create", "update", "patch"]

  const PROFILE: Permissions := map[
    "power.zalud.io/nutservers" := ["get", "list", "watch", "update", "patch"],
    "power.zalud.io/nutservers/status" := ["get", "update", "patch"],
    "power.zalud.io/nutservers/finalizers" := ["update"],
    "power.zalud.io/upsdevices" := ["get", "list", "watch"],
    "/namespaces" := READ_WRITE,
    "/configmaps" := READ_WRITE,
    "/secrets" := READ_WRITE,
    "/services" := READ_WRITE,
    "/events" := ["create", "patch"],
    "events.k8s.io/events" := ["create", "patch"],
    "apps/deployments" := READ_WRITE,
    "networking.k8s.io/networkpolicies" := READ_WRITE,
    "policy/poddisruptionbudgets" := READ_WRITE]

  /** The profile lists a verb for a group and resource. */
  predicate Lists(profile: Permissions, group: string, resource: string, verb: string) {
    var key := group + "/" + resource;
    key in profile && verb in profile[key]
  }

  predicate Listed(profile: Permissions, q: Request) {
    Lists(profile, q.group, q.resource, q.verb)
  }

  // ---- what rules grant ----

  predicate Names(rule: Rule, name: string) {
    rule.resourceNames == [] || name in rule.resourceNames
  }

  predicate Covers(entries: seq<string>, wanted: string) {
    wanted in entries || "*" in entries
  }

  /** A rule grants a request by naming it or by a wildcard. */
  predicate Grants(rule: Rule, q: Request) {
    Covers(rule.apiGroups, q.group) && Covers(rule.resources, q.resource) && Covers(rule.verbs, q.verb) && Names(rule, q.name)
  }

  /** A rule names a request outright. */
  predicate NamesOutright(rule: Rule, q: Request) {
    q.group in rule.apiGroups && q.resource in rule.resources && q.verb in rule.verbs && Names(rule, q.name)
  }

  ghost predicate Allowed(rules: seq<Rule>, q: Request) {
    exists i :: 0 <= i < |rules| && Grants(rules[i], q)
  }

  ghost predicate AllowedOutright(rules: seq<Rule>, q: Request) {
    exists i :: 0 <= i < |rules| && NamesOutright(rules[i], q)
  }

  predicate WildcardFree(rule: Rule) {
    "*" !in rule.apiGroups && "*" !in rule.resources && "*" !in rule.verbs
  }

  /** The profile mentions no wildcard: a starred group, resource or verb is listed nowhere. */
  ghost predicate ListsNoWildcard(profile: Permissions) {
    forall group, resource, verb :: Lists(profile, group, resource, verb) ==> group != "*" && resource != "*" && verb != "*"
  }

  // ---- restriction ----

  /** The verbs of a rule the profile lists, in order. */
  function KeptVerbs(verbs: seq<string>, listed: seq<string>): (r: seq<string>)
    ensures forall v :: v in r <==> v in verbs && v in listed
  {
    if verbs == [] then []
    else
      var last := verbs[|verbs| - 1];
      assert verbs == verbs[..|verbs| - 1] + [last];
      KeptVerbs(verbs[..|verbs| - 1], listed) + if last in listed then [last] else []
  }

  /** Every produced rule names one group and one resource, keeps the source's object names, and carries at
      least one verb. */
  ghost predicate Single(rule: Rule) {
    |rule.apiGroups| == 1 && |rule.resources| == 1 && rule.verbs != []
  }

  lemma OutrightSnoc(rules: seq<Rule>, rule: Rule, q: Request)
    ensures AllowedOutright(rules + [rule], q) <==> AllowedOutright(rules, q) || NamesOutright(rule, q)
  {
    var all := rules + [rule];
    if i :| 0 <= i < |rules| && NamesOutright(rules[i], q) { assert all[i] == rules[i]; }
    if NamesOutright(rule, q) { assert all[|rules|] == rule; }
    if i :| 0 <= i < |all| && NamesOutright(all[i], q) {
      if i < |rules| { assert all[i] == rules[i]; }
    }
  }

  /** The rule produced for one group and resource, if any verb survives. */
  method RestrictOne(rule: Rule, group: string, resource: string, profile: Permissions, rules: seq<Rule>) returns (result: seq<Rule>)
    requires AllSingle(rules)
    ensures AllSingle(result)
    ensures forall q :: AllowedOutright(result, q) <==>
              || AllowedOutright(rules, q)
              || (q.group == group && q.resource == resource && q.verb in rule.verbs && Names(rule, q.name) && Listed(profile, q))
  {
    var key := group + "/" + resource;
    var listed := if key in profile then profile[key] else [];
    var verbs: seq<string> := [];
    for v := 0 to |rule.verbs|
      invariant verbs == KeptVerbs(rule.verbs[..v], listed)
    {
      assert rule.verbs[..v + 1][..v] == rule.verbs[..v];
      if rule.verbs[v] in listed { verbs := verbs + [rule.verbs[v]]; }
    }
    assert rule.verbs[..|rule.verbs|] == rule.verbs;
    result := rules;
    if verbs != [] {
      var produced := Rule([group], [resource], rule.resourceNames, verbs);
      result := rules + [produced];
      forall q ensures AllowedOutright(result, q) <==> AllowedOutright(rules, q) || NamesOutright(produced, q) {
        OutrightSnoc(rules, produced, q);
      }
    }
  }

  ghost predicate AllSingle(rules: seq<Rule>) {
    forall i :: 0 <= i < |rules| ==> Single(rules[i])
  }

  /** The rules produced for one group of a rule. */
  method RestrictGroup(rule: Rule, group: string, profile: Permissions, rules: seq<Rule>) returns (result: seq<Rule>)
    requires AllSingle(rules)
    ensures AllSingle(result)
    ensures forall q :: AllowedOutright(result, q) <==>
              || AllowedOutright(rules, q)
              || (q.group == group && q.resource in rule.resources && q.verb in rule.verbs && Names(rule, q.name) && Listed(profile, q))
  {
    result := rules;
    for r := 0 to |rule.resources|
      invariant AllSingle(result)
      invariant forall q :: AllowedOutright(result, q) <==>
                  || AllowedOutright(rules, q)
                  || (q.group == group && q.resource in rule.resources[..r] && q.verb in rule.verbs && Names(rule, q.name) && Listed(profile, q))
    {
      assert rule.resources[..r + 1] == rule.resources[..r] + [rule.resources[r]];
      result := RestrictOne(rule, group, rule.resources[r], profile, result);
    }
    assert rule.resources[..|rule.resources|] == rule.resources;
  }

  /** The rules produced for one source rule grant what it names and the profile lists. */
  method RestrictRule(rule: Rule, profile: Permissions, rules: seq<Rule>) returns (result: seq<Rule>)
    requires AllSingle(rules)
    ensures AllSingle(result)
    ensures forall q :: AllowedOutright(result, q) <==> AllowedOutright(rules, q) || (NamesOutright(rule, q) && Listed(profile, q))
  {
    result := rules;
    for g := 0 to |rule.apiGroups|
      invariant AllSingle(result)
      invariant forall q :: AllowedOutright(result, q) <==>
                  || AllowedOutright(rules, q)
                  || (q.group in rule.apiGroups[..g] && q.resource in rule.resources && q.verb in rule.verbs && Names(rule, q.name) && Listed(profile, q))
    {
      assert rule.apiGroups[..g + 1] == rule.apiGroups[..g] + [rule.apiGroups[g]];
      result := RestrictGroup(rule, rule.apiGroups[g], profile, result);
    }
    assert rule.apiGroups[..|rule.apiGroups|] == rule.apiGroups;
  }

  /** A produced rule carries no wildcard when the profile lists none. */
  lemma ProducedIsWildcardFree(rules: seq<Rule>, profile: Permissions, i: nat)
    requires ListsNoWildcard(profile) && AllSingle(rules) && i < |rules|
    requires forall q :: AllowedOutright(rules, q) ==> Listed(profile, q)
    ensures WildcardFree(rules[i])
  {
    var rule := rules[i];
    var name := if rule.resourceNames == [] then "" else rule.resourceNames[0];
    forall verb | verb in rule.verbs ensures verb != "*" && rule.apiGroups[0] != "*" && rule.resources[0] != "*" {
      var q := Request(rule.apiGroups[0], rule.resources[0], verb, name);
      assert NamesOutright(rules[i], q);
      assert AllowedOutright(rules, q);
      assert Lists(profile, q.group, q.resource, q.verb);
    }
    assert rule.verbs[0] in rule.verbs;
  }

  lemma WildcardFreeGrantsOutright(rules: seq<Rule>, q: Request)
    requires forall i :: 0 <= i < |rules| ==> WildcardFree(rules[i])
    ensures Allowed(rules, q) <==> AllowedOutright(rules, q)
  {
    if i :| 0 <= i < |rules| && Grants(rules[i], q) { assert NamesOutright(rules[i], q); }
    if i :| 0 <= i < |rules| && NamesOutright(rules[i], q) { assert Grants(rules[i], q); }
  }

  lemma OutrightIsGranted(rules: seq<Rule>, q: Request)
    requires AllowedOutright(rules, q)
    ensures Allowed(rules, q)
  {
    var i :| 0 <= i < |rules| && NamesOutright(rules[i], q);
    assert Grants(rules[i], q);
  }

  // ---- what becomes of wildcards ----

  predicate CoversAccess(rule: Rule, group: string, resource: string, verb: string) {
    Covers(rule.apiGroups, group) && Covers(rule.resources, resource) && Covers(rule.verbs, verb)
  }

  predicate NamesAccess(rule: Rule, group: string, resource: string, verb: string) {
    group in rule.apiGroups && resource in rule.resources && verb in rule.verbs
  }

  /** The list names the access outright for every object the rule covers. */
  ghost predicate SpelledOut(source: seq<Rule>, rule: Rule, group: string, resource: string, verb: string) {
    if rule.resourceNames == [] then
      exists j :: 0 <= j < |source| && NamesAccess(source[j], group, resource, verb) && source[j].resourceNames == []
    else
      forall name :: name in rule.resourceNames ==>
        exists j :: 0 <= j < |source| && NamesAccess(source[j], group, resource, verb) && Names(source[j], name)
  }

  /** Whatever a rule covers of the profile only through a star, the list also names outright. */
  ghost predicate StarsAreSpelledOut(source: seq<Rule>, profile: Permissions) {
    forall i, group, resource, verb ::
      && 0 <= i < |source| && Lists(profile, group, resource, verb)
      && CoversAccess(source[i], group, resource, verb) && !NamesAccess(source[i], group, resource, verb) ==>
        SpelledOut(source, source[i], group, resource, verb)
  }

  /** Every listed request the rules grant is named outright. */
  ghost predicate NothingIsLost(source: seq<Rule>, profile: Permissions) {
    forall q :: Allowed(source, q) && Listed(profile, q) ==> AllowedOutright(source, q)
  }

  lemma {:induction false} NameBound(names: seq<string>) returns (bound: nat)
    ensures forall n :: n in names ==> |n| < bound
  {
    if names == [] {
      bound := 0;
    } else {
      var front, last := names[..|names| - 1], names[|names| - 1];
      var b := NameBound(front);
      bound := b + |last| + 1;
      assert names == front + [last];
    }
  }

  lemma {:induction false} FreshName(source: seq<Rule>) returns (name: string)
    ensures forall j :: 0 <= j < |source| ==> forall n :: n in source[j].resourceNames ==> |n| < |name|
  {
    if source == [] {
      name := "";
    } else {
      var front, last := source[..|source| - 1], source[|source| - 1];
      var shorter := FreshName(front);
      var bound := NameBound(last.resourceNames);
      name := shorter + seq(bound, _ => 'x');
      assert forall j :: 0 <= j < |front| ==> source[j] == front[j];
    }
  }

  lemma GrantIsSpelledOut(source: seq<Rule>, profile: Permissions, i: nat, q: Request)
    requires StarsAreSpelledOut(source, profile) && i < |source| && Grants(source[i], q) && Listed(profile, q)
    ensures AllowedOutright(source, q)
  {
    if NamesAccess(source[i], q.group, q.resource, q.verb) {
      assert NamesOutright(source[i], q);
    } else {
      assert SpelledOut(source, source[i], q.group, q.resource, q.verb);
      var j :| 0 <= j < |source| && NamesAccess(source[j], q.group, q.resource, q.verb) && Names(source[j], q.name);
      assert NamesOutright(source[j], q);
    }
  }

  lemma NamedFor(source: seq<Rule>, profile: Permissions, i: nat, q: Request) returns (j: nat)
    requires NothingIsLost(source, profile) && i < |source| && Grants(source[i], q) && Listed(profile, q)
    ensures j < |source| && NamesAccess(source[j], q.group, q.resource, q.verb) && Names(source[j], q.name)
  {
    assert Allowed(source, q);
    j :| 0 <= j < |source| && NamesOutright(source[j], q);
  }

  lemma StarIsSpelledOut(source: seq<Rule>, profile: Permissions, i: nat, group: string, resource: string, verb: string)
    requires NothingIsLost(source, profile) && i < |source|
    requires Lists(profile, group, resource, verb) && CoversAccess(source[i], group, resource, verb)
    ensures SpelledOut(source, source[i], group, resource, verb)
  {
    if source[i].resourceNames == [] {
      var name := FreshName(source);
      var j := NamedFor(source, profile, i, Request(group, resource, verb, name));
      assert source[j].resourceNames == [];
    } else {
      forall name | name in source[i].resourceNames
        ensures exists j :: 0 <= j < |source| && NamesAccess(source[j], group, resource, verb) && Names(source[j], name)
      {
        var j := NamedFor(source, profile, i, Request(group, resource, verb, name));
      }
    }
  }

  /** Exactly when restricting loses nothing of the intersection: when every star is spelled out as far as the
      profile reaches. */
  lemma NothingIsLostExactlyWhen(source: seq<Rule>, profile: Permissions)
    ensures NothingIsLost(source, profile) <==> StarsAreSpelledOut(source, profile)
  {
    if NothingIsLost(source, profile) {
      forall i, group, resource, verb |
        && 0 <= i < |source| && Lists(profile, group, resource, verb)
        && CoversAccess(source[i], group, resource, verb) && !NamesAccess(source[i], group, resource, verb)
        ensures SpelledOut(source, source[i], group, resource, verb)
      {
        StarIsSpelledOut(source, profile, i, group, resource, verb);
      }
    }
    if StarsAreSpelledOut(source, profile) {
      forall q | Allowed(source, q) && Listed(profile, q) ensures AllowedOutright(source, q) {
        var i :| 0 <= i < |source| && Grants(source[i], q);
        GrantIsSpelledOut(source, profile, i, q);
      }
    }
  }

  /** Cuts a rule list down to a profile. What remains grants exactly the requests the source names outright
      and the profile lists. That is never more than the intersection with the profile, is the intersection for a
      wildcard-free role, and is the intersection exactly when every star is spelled out. */
  method RestrictRules(source: seq<Rule>, profile: Permissions) returns (result: seq<Rule>)
    requires ListsNoWildcard(profile)
    ensures forall q :: Allowed(result, q) <==> AllowedOutright(source, q) && Listed(profile, q)
    ensures (forall i :: 0 <= i < |source| ==> WildcardFree(source[i])) ==>
              forall q :: Allowed(result, q) <==> Allowed(source, q) && Listed(profile, q)
    ensures forall q :: Allowed(result, q) ==> Allowed(source, q) && Listed(profile, q)
    ensures (forall q :: Allowed(result, q) <==> Allowed(source, q) && Listed(profile, q)) <==> StarsAreSpelledOut(source, profile)
  {
    result := [];
    for i := 0 to |source|
      invariant AllSingle(result)
      invariant forall q :: AllowedOutright(result, q) <==> AllowedOutright(source[..i], q) && Listed(profile, q)
    {
      assert source[..i + 1] == source[..i] + [source[i]];
      forall q ensures AllowedOutright(source[..i + 1], q) <==> AllowedOutright(source[..i], q) || NamesOutright(source[i], q) {
        OutrightSnoc(source[..i], source[i], q);
      }
      result := RestrictRule(source[i], profile, result);
    }
    assert source[..|source|] == source;
    RestrictionMeans(source, result, profile);
  }

  lemma RestrictionMeans(source: seq<Rule>, result: seq<Rule>, profile: Permissions)
    requires ListsNoWildcard(profile) && AllSingle(result)
    requires forall q :: AllowedOutright(result, q) <==> AllowedOutright(source, q) && Listed(profile, q)
    ensures forall q :: Allowed(result, q) <==> AllowedOutright(source, q) && Listed(profile, q)
    ensures (forall i :: 0 <= i < |source| ==> WildcardFree(source[i])) ==>
              forall q :: Allowed(result, q) <==> Allowed(source, q) && Listed(profile, q)
    ensures forall q :: Allowed(result, q) ==> Allowed(source, q) && Listed(profile, q)
    ensures (forall q :: Allowed(result, q) <==> Allowed(source, q) && Listed(profile, q)) <==> StarsAreSpelledOut(source, profile)
  {
    forall i | 0 <= i < |result| ensures WildcardFree(result[i]) { ProducedIsWildcardFree(result, profile, i); }
    forall q ensures Allowed(result, q) <==> AllowedOutright(result, q) { WildcardFreeGrantsOutright(result, q); }
    forall q | AllowedOutright(source, q) ensures Allowed(source, q) { OutrightIsGranted(source, q); }
    if forall i :: 0 <= i < |source| ==> WildcardFree(source[i]) {
      forall q ensures Allowed(source, q) <==> AllowedOutright(source, q) { WildcardFreeGrantsOutright(source, q); }
    }
    NothingIsLostExactlyWhen(source, profile);
    assert (forall q :: Allowed(result, q) <==> Allowed(source, q) && Listed(profile, q)) <==> NothingIsLost(source, profile);
  }

  lemma ProfileEntry(key: string)
    requires key in PROFILE
    ensures key != "" && key[0] != '*' && key[|key| - 1] != '*'
    ensures forall v :: v in PROFILE[key] ==> |v| > 1
  {
  }

  lemma StarsShow(group: string, resource: string)
    ensures var key := group + "/" + resource;
            (group == "*" ==> key[0] == '*') && (resource == "*" ==> key[|key| - 1] == '*')
  {
  }

  /** The installer's profile lists no wildcard, so the restriction applies to it. */
  lemma ProfileListsNoWildcard()
    ensures ListsNoWildcard(PROFILE)
  {
    forall group, resource, verb | Lists(PROFILE, group, resource, verb)
      ensures group != "*" && resource != "*" && verb != "*"
    {
      var key := group + "/" + resource;
      StarsShow(group, resource);
      ProfileEntry(key);
    }
  }

  /** What the profile lists: its own resources to read and report on, the operand's to read and write, events to
      emit, and nothing to delete. */
  lemma ProfileMeans(key: string, verb: string)
    requires key in PROFILE && verb in PROFILE[key]
    ensures key in {"power.zalud.io/nutservers", "power.zalud.io/nutservers/status", "power.zalud.io/nutservers/finalizers",
                    "power.zalud.io/upsdevices", "/namespaces", "/configmaps", "/secrets", "/services", "/events",
                    "events.k8s.io/events", "apps/deployments", "networking.k8s.io/networkpolicies", "policy/poddisruptionbudgets"}
    ensures verb in {"get", "list", "watch", "create", "update", "patch"}
    ensures key in {"/events", "events.k8s.io/events"} ==> verb in {"create", "patch"}
    ensures key == "power.zalud.io/upsdevices" ==> verb in {"get", "list", "watch"}
  {
  }

  /** The installer's cut of the generated role. */
  method RestrictToProfile(source: seq<Rule>) returns (result: seq<Rule>)
    ensures forall q :: Allowed(result, q) <==> AllowedOutright(source, q) && Listed(PROFILE, q)
    ensures (forall i :: 0 <= i < |source| ==> WildcardFree(source[i])) ==>
              forall q :: Allowed(result, q) <==> Allowed(source, q) && Listed(PROFILE, q)
    ensures (forall q :: Allowed(result, q) <==> Allowed(source, q) && Listed(PROFILE, q)) <==> StarsAreSpelledOut(source, PROFILE)
  {
    ProfileListsNoWildcard();
    result := RestrictRules(source, PROFILE);
  }

  /** A role of stars alone is the failing input: it grants all the profile lists, and the cut grants nothing. */
  method CutOfStars() returns (result: seq<Rule>)
    ensures var stars, q := [Rule(["*"], ["*"], [], ["*"])], Request("", "secrets", "get", "");
            Allowed(stars, q) && Listed(PROFILE, q) && !Allowed(result, q)
    ensures forall q :: !Allowed(result, q)
  {
    var stars := [Rule(["*"], ["*"], [], ["*"])];
    result := RestrictToProfile(stars);
    forall q ensures !(AllowedOutright(stars, q) && Listed(PROFILE, q)) { StarsNameNothing(stars[0], q); }
    SecretsAreListed();
    assert Grants(stars[0], Request("", "secrets", "get", ""));
  }

  lemma StarsNameNothing(rule: Rule, q: Request)
    requires rule.apiGroups == ["*"]
    ensures !(AllowedOutright([rule], q) && Listed(PROFILE, q))
  {
    ProfileListsNoWildcard();
    if Listed(PROFILE, q) { assert Lists(PROFILE, q.group, q.resource, q.verb); }
  }

  lemma SecretsAreListed()
    ensures Lists(PROFILE, "", "secrets", "get")
  {
    assert "" + "/" + "secrets" == "/secrets";
    assert READ_WRITE[0] == "get";
  }
}
