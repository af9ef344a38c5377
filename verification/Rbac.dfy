/** Deciding API actions against a user's roles: pkg/util/rbac/evaluate.go. */
module Evaluate {
  import opened Wrappers
  import opened Rules

  datatype Action = Action(verb: string, resourceType: string, name: string, namespace: string)

  /** A role as it is embedded in a token. */
  datatype UserRole = UserRole(name: string, rules: seq<Rule>)

  class APIAction {
    var Verb: string
    var ResourceType: string
    var ResourceName: string
    var ResourceNamespace: string

    constructor (a: Action)
      ensures Value() == a
    {
      Verb, ResourceType, ResourceName, ResourceNamespace := a.verb, a.resourceType, a.name, a.namespace;
    }

    function Value(): Action
      reads this
    {
      Action(Verb, ResourceType, ResourceName, ResourceNamespace)
    }
  }

  /** The default service account stands for launching templates in the namespace. */
  function Normalised(a: Action): Action {
    if a.resourceType == RESOURCE_SERVICE_ACCOUNTS && a.name == "default" then
      a.(name := "", resourceType := RESOURCE_TEMPLATES)
    else a
  }

  predicate RuleAllows(compile: Compiler, r: Rule, a: Action) {
    && HasVerb(r, a.verb)
    && HasResourceType(r, a.resourceType)
    && (a.name == "" || MatchesResourceName(compile, r, a.name))
    && (a.namespace == "" || HasNamespace(r, a.namespace))
  }

  predicate RulesGrant(compile: Compiler, rules: seq<Rule>, a: Action) {
    exists rule <- rules :: RuleAllows(compile, rule, Normalised(a))
  }

  /** What a user may do, said without any order of roles or rules and without rewriting. */
  predicate RolesGrant(compile: Compiler, roles: seq<UserRole>, a: Action) {
    exists role <- roles :: RulesGrant(compile, role.rules, a)
  }

  /** What a rule permits, read off its lists: "*" stands for every verb, type and namespace, names must match a
      pattern, and the default service account is asked for as a nameless template. */
  predicate Permits(compile: Compiler, r: Rule, a: Action) {
    && ("*" in r.verbs || a.verb in r.verbs)
    && (a.namespace == "" || "*" in r.namespaces || a.namespace in r.namespaces)
    && if a.resourceType == "serviceaccounts" && a.name == "default" then
         "*" in r.resources || "templates" in r.resources
       else
         && ("*" in r.resources || a.resourceType in r.resources)
         && (a.name == "" || exists p <- r.patterns :: compile(p).Some? && compile(p).value(a.name))
  }

  lemma AllowsWhatListsSay(compile: Compiler, r: Rule, a: Action)
    ensures RuleAllows(compile, r, Normalised(a)) <==> Permits(compile, r, a)
  {
    ListsSay(r, a.verb);
    ListsSay(r, a.namespace);
    ListsSay(r, a.resourceType);
    ListsSay(r, "templates");
  }

  lemma ListsSay(r: Rule, x: string)
    ensures HasVerb(r, x) <==> "*" in r.verbs || x in r.verbs
    ensures HasResourceType(r, x) <==> "*" in r.resources || x in r.resources
    ensures HasNamespace(r, x) <==> "*" in r.namespaces || x in r.namespaces
  {
    assert "*" in r.verbs || x in r.verbs ==> exists item <- r.verbs :: item == VERB_ALL || item == x;
    assert "*" in r.resources || x in r.resources ==> exists item <- r.resources :: item == RESOURCE_ALL || item == x;
    assert "*" in r.namespaces || x in r.namespaces ==>
      exists item <- r.namespaces :: item == NAMESPACE_ALL || item == x;
  }

  lemma RulesGrantMeans(compile: Compiler, rules: seq<Rule>, a: Action)
    ensures RulesGrant(compile, rules, a) <==> exists r <- rules :: Permits(compile, r, a)
  {
    forall r ensures RuleAllows(compile, r, Normalised(a)) <==> Permits(compile, r, a) {
      AllowsWhatListsSay(compile, r, a);
    }
  }

  /** What a user may do, read off the lists of the rules of the user's roles. */
  lemma RolesGrantMeans(compile: Compiler, roles: seq<UserRole>, a: Action)
    ensures RolesGrant(compile, roles, a)
       <==> exists role, r :: role in roles && r in role.rules && Permits(compile, r, a)
  {
    forall role: UserRole
      ensures RulesGrant(compile, role.rules, a) <==> exists r <- role.rules :: Permits(compile, r, a)
    {
      RulesGrantMeans(compile, role.rules, a);
    }
  }

  /** Whoever has a role with a rule of wildcards, as the admin role has, may do all that needs no name. */
  lemma WildcardsGrant(compile: Compiler, roles: seq<UserRole>, role: UserRole, r: Rule, a: Action)
    requires role in roles && r in role.rules && "*" in r.verbs && "*" in r.resources && "*" in r.namespaces
    ensures a.name == "" || (exists p <- r.patterns :: compile(p).Some? && compile(p).value(a.name)) ==>
      RolesGrant(compile, roles, a)
  {
    RolesGrantMeans(compile, roles, a);
    assert Permits(compile, r, a) ==> exists role, r :: role in roles && r in role.rules && Permits(compile, r, a);
  }

  method EvaluateRule(compile: Compiler, r: Rule, action: APIAction) returns (ok: bool)
    modifies action
    ensures action.Value() == Normalised(old(action.Value()))
    ensures ok <==> RuleAllows(compile, r, Normalised(old(action.Value())))
    ensures ok <==> Permits(compile, r, old(action.Value()))
  {
    AllowsWhatListsSay(compile, r, action.Value());
    if action.ResourceType == RESOURCE_SERVICE_ACCOUNTS && action.ResourceName == "default" {
      action.ResourceName := "";
      action.ResourceType := RESOURCE_TEMPLATES;
    }
    if !HasVerb(r, action.Verb) {
      return false;
    }
    if !HasResourceType(r, action.ResourceType) {
      return false;
    }
    if action.ResourceName != "" && !MatchesResourceName(compile, r, action.ResourceName) {
      return false;
    }
    if action.ResourceNamespace != "" && !HasNamespace(r, action.ResourceNamespace) {
      return false;
    }
    return true;
  }

  /** The first rule rewrites the caller's action; the verdict is that of the original. */
  method EvaluateRole(compile: Compiler, role: UserRole, action: APIAction) returns (ok: bool)
    modifies action
    ensures ok <==> RulesGrant(compile, role.rules, old(action.Value()))
    ensures ok <==> exists r <- role.rules :: Permits(compile, r, old(action.Value()))
    ensures action.Value() == if role.rules == [] then old(action.Value()) else Normalised(old(action.Value()))
  {
    ghost var asked := action.Value();
    RulesGrantMeans(compile, role.rules, asked);
    for i := 0 to |role.rules|
      invariant action.Value() == if i == 0 then asked else Normalised(asked)
      invariant forall k :: 0 <= k < i ==> !RuleAllows(compile, role.rules[k], Normalised(asked))
    {
      var allowed := EvaluateRule(compile, role.rules[i], action);
      if allowed {
        return true;
      }
    }
    return false;
  }

  method EvaluateUser(compile: Compiler, roles: seq<UserRole>, action: APIAction) returns (ok: bool)
    modifies action
    ensures ok <==> RolesGrant(compile, roles, old(action.Value()))
    ensures ok <==> exists role, r :: role in roles && r in role.rules && Permits(compile, r, old(action.Value()))
    ensures action.Value() ==
      if forall role <- roles :: role.rules == [] then old(action.Value()) else Normalised(old(action.Value()))
  {
    ghost var asked := action.Value();
    RolesGrantMeans(compile, roles, asked);
    for i := 0 to |roles|
      invariant action.Value() == if forall k :: 0 <= k < i ==> roles[k].rules == [] then asked else Normalised(asked)
      invariant forall k :: 0 <= k < i ==> !RulesGrant(compile, roles[k].rules, asked)
    {
      assert RulesGrant(compile, roles[i].rules, asked) == RulesGrant(compile, roles[i].rules, action.Value());
      var allowed := EvaluateRole(compile, roles[i], action);
      if allowed {
        assert roles[i] in roles && roles[i].rules != [];
        return true;
      }
    }
    return false;
  }

  /** Every rule of one role list occurs, up to the order of its fields, in the other. */
  ghost predicate RulesOccurIn(these: seq<UserRole>, those: seq<UserRole>) {
    forall role, rule | role in these && rule in role.rules ::
      exists role', rule' :: role' in those && rule' in role'.rules && SameRule(rule, rule')
  }

  /** Decisions are monotone in the rules held, so neither order, grouping into roles nor repetition matters. */
  lemma GrantsMonotone(compile: Compiler, these: seq<UserRole>, those: seq<UserRole>, a: Action)
    requires RulesOccurIn(these, those) && RolesGrant(compile, these, a)
    ensures RolesGrant(compile, those, a)
  {
    var role :| role in these && RulesGrant(compile, role.rules, a);
    var rule :| rule in role.rules && RuleAllows(compile, rule, Normalised(a));
    var role', rule' :| role' in those && rule' in role'.rules && SameRule(rule, rule');
    SameRuleAllows(compile, rule, rule', Normalised(a));
    assert RulesGrant(compile, role'.rules, a);
  }

  /** Rules that DeepEqual identifies decide every action alike. */
  lemma SameRuleAllows(compile: Compiler, r: Rule, s: Rule, a: Action)
    requires SameRule(r, s)
    ensures RuleAllows(compile, r, a) == RuleAllows(compile, s, a)
  {
    SameRuleSameAnswers(compile, r, s, a.verb);
    SameRuleSameAnswers(compile, r, s, a.resourceType);
    SameRuleSameAnswers(compile, r, s, a.name);
    SameRuleSameAnswers(compile, r, s, a.namespace);
  }
}

/** Whether one rule covers another: pkg/util/rbac/rule_includes.go. */
module RuleInclusion {
  import opened Wrappers
  import opened Rules
  import opened Evaluate
  import opened Slices

  /** What the resource getter answers; None is an error. */
  datatype Listing = Listing(roles: Option<seq<string>>, users: Option<seq<string>>, templates: Option<seq<string>>)

  /** No listed name separates the two rules, and the names could be listed. */
  predicate NamesCovered(compile: Compiler, r: Rule, c: Rule, names: Option<seq<string>>) {
    && names.Some?
    && forall n <- names.value :: !(MatchesResourceName(compile, c, n) && !MatchesResourceName(compile, r, n))
  }

  predicate ResourceCovered(compile: Compiler, r: Rule, c: Rule, resource: string, listing: Listing) {
    && HasResourceType(r, resource)
    && (resource == RESOURCE_ALL || resource == RESOURCE_ROLES ==> NamesCovered(compile, r, c, listing.roles))
    && (resource == RESOURCE_ALL || resource == RESOURCE_USERS ==> NamesCovered(compile, r, c, listing.users))
    && (resource == RESOURCE_ALL || resource == RESOURCE_TEMPLATES ==> NamesCovered(compile, r, c, listing.templates))
  }

  ghost predicate RuleIncludes(compile: Compiler, r: Rule, c: Rule, listing: Listing) {
    || SameRule(r, c)
    || (&& (forall verb <- c.verbs :: HasVerb(r, verb))
        && (forall ns <- c.namespaces :: HasNamespace(r, ns))
        && (forall resource <- c.resources :: ResourceCovered(compile, r, c, resource, listing)))
  }

  ghost predicate RoleIncludesRule(compile: Compiler, role: UserRole, c: Rule, listing: Listing) {
    exists rule <- role.rules :: RuleIncludes(compile, rule, c, listing)
  }

  ghost predicate UserIncludesRule(compile: Compiler, roles: seq<UserRole>, c: Rule, listing: Listing) {
    exists role <- roles :: RoleIncludesRule(compile, role, c, listing)
  }

  /** The names that bear on a resource type; None if they could not be listed. A wildcard brings in all listings, and
      service accounts have none. */
  function NamesFor(listing: Listing, resource: string): Option<seq<string>> {
    if resource == RESOURCE_ROLES then listing.roles
    else if resource == RESOURCE_USERS then listing.users
    else if resource == RESOURCE_TEMPLATES then listing.templates
    else if resource != RESOURCE_ALL then Some([])
    else if listing.roles.Some? && listing.users.Some? && listing.templates.Some? then
      Some(listing.roles.value + listing.users.value + listing.templates.value)
    else None
  }

  /** The actions the check answers for: nameless ones, the default service account, those naming a listed resource of
      their type, and all on a type whose listing failed. */
  ghost predicate InScope(listing: Listing, a: Action) {
    || a.name == ""
    || (a.resourceType == RESOURCE_SERVICE_ACCOUNTS && a.name == "default")
    || NamesFor(listing, a.resourceType).None?
    || a.name in NamesFor(listing, a.resourceType).value
  }

  ghost predicate Allowed(compile: Compiler, r: Rule, a: Action) {
    RuleAllows(compile, r, Normalised(a))
  }

  ghost predicate Contains(compile: Compiler, r: Rule, c: Rule, listing: Listing) {
    forall a | InScope(listing, a) && Allowed(compile, c, a) :: Allowed(compile, r, a)
  }

  lemma ResourceCoveredMeans(compile: Compiler, r: Rule, c: Rule, resource: string, listing: Listing)
    ensures ResourceCovered(compile, r, c, resource, listing)
       <==> HasResourceType(r, resource) && NamesCovered(compile, r, c, NamesFor(listing, resource))
  {
    if NamesFor(listing, RESOURCE_ALL).Some? {
      var all := NamesFor(listing, RESOURCE_ALL).value;
      assert forall n ::
        n in all <==> n in listing.roles.value || n in listing.users.value || n in listing.templates.value;
    }
  }

  lemma ResourceNamesCovered(compile: Compiler, r: Rule, c: Rule, listing: Listing, a: Action)
    requires forall resource <- c.resources :: ResourceCovered(compile, r, c, resource, listing)
    requires InScope(listing, a) && Allowed(compile, c, a)
    ensures var n := Normalised(a);
            HasResourceType(r, n.resourceType) && (n.name == "" || MatchesResourceName(compile, r, n.name))
  {
    var n := Normalised(a);
    var item :| item in c.resources && (item == RESOURCE_ALL || item == n.resourceType);
    assert ResourceCovered(compile, r, c, item, listing);
    ResourceCoveredMeans(compile, r, c, item, listing);
  }

  /** Inclusion is sound: whatever the included rule allows, the including rule allows. */
  lemma RuleIncludesSound(compile: Compiler, r: Rule, c: Rule, listing: Listing)
    requires RuleIncludes(compile, r, c, listing)
    ensures Contains(compile, r, c, listing)
  {
    forall a | InScope(listing, a) && Allowed(compile, c, a) ensures Allowed(compile, r, a) {
      if SameRule(r, c) {
        SameRuleAllows(compile, r, c, Normalised(a));
      } else {
        ResourceNamesCovered(compile, r, c, listing, a);
        var v :| v in c.verbs && (v == VERB_ALL || v == a.verb);
        assert HasVerb(r, v);
        if a.namespace != "" {
          var ns :| ns in c.namespaces && (ns == NAMESPACE_ALL || ns == a.namespace);
          assert HasNamespace(r, ns);
        }
      }
    }
  }

  /** Every verb, namespace and type the one rule has the other has too, and every listed name of such a type. */
  ghost predicate Dominates(compile: Compiler, r: Rule, c: Rule, listing: Listing) {
    && (forall verb :: HasVerb(c, verb) ==> HasVerb(r, verb))
    && (forall ns :: HasNamespace(c, ns) ==> HasNamespace(r, ns))
    && (forall t ::
          HasResourceType(c, t) ==> HasResourceType(r, t) && NamesCovered(compile, r, c, NamesFor(listing, t)))
  }

  lemma DominatesIncludes(compile: Compiler, r: Rule, c: Rule, listing: Listing)
    requires Dominates(compile, r, c, listing)
    ensures RuleIncludes(compile, r, c, listing)
  {
    forall verb | verb in c.verbs ensures HasVerb(r, verb) {
      assert HasVerb(c, verb);
    }
    forall ns | ns in c.namespaces ensures HasNamespace(r, ns) {
      assert HasNamespace(c, ns);
    }
    forall t | t in c.resources ensures ResourceCovered(compile, r, c, t, listing) {
      assert HasResourceType(c, t);
      ResourceCoveredMeans(compile, r, c, t, listing);
    }
  }

  lemma TypeCovered(compile: Compiler, r: Rule, c: Rule, listing: Listing, t: string)
    requires forall resource <- c.resources :: ResourceCovered(compile, r, c, resource, listing)
    requires HasResourceType(c, t)
    ensures HasResourceType(r, t) && NamesCovered(compile, r, c, NamesFor(listing, t))
  {
    var item :| item in c.resources && (item == RESOURCE_ALL || item == t);
    assert ResourceCovered(compile, r, c, item, listing);
    ResourceCoveredMeans(compile, r, c, item, listing);
  }

  /** Inclusion is equality up to order, or domination in verbs, namespaces, types and listed names, for any
      two rules. */
  lemma RuleIncludesMeans(compile: Compiler, r: Rule, c: Rule, listing: Listing)
    ensures RuleIncludes(compile, r, c, listing) <==> SameRule(r, c) || Dominates(compile, r, c, listing)
  {
    if Dominates(compile, r, c, listing) {
      DominatesIncludes(compile, r, c, listing);
    }
    if RuleIncludes(compile, r, c, listing) && !SameRule(r, c) {
      forall t | HasResourceType(c, t)
        ensures HasResourceType(r, t) && NamesCovered(compile, r, c, NamesFor(listing, t))
      {
        TypeCovered(compile, r, c, listing, t);
      }
      forall verb | HasVerb(c, verb) ensures HasVerb(r, verb) {
        var item :| item in c.verbs && (item == VERB_ALL || item == verb);
        assert HasVerb(r, item);
      }
      forall ns | HasNamespace(c, ns) ensures HasNamespace(r, ns) {
        var item :| item in c.namespaces && (item == NAMESPACE_ALL || item == ns);
        assert HasNamespace(r, item);
      }
    }
  }

  // ---- when inclusion is complete

  /** The rule grants something, an empty namespace entry is harmless, and the names that bear on it were listed
      without an empty one that it matches. Or else it is blank. */
  predicate Comparable(compile: Compiler, c: Rule, listing: Listing) {
    if c.verbs == [] || c.resources == [] then c.verbs == [] && c.resources == [] && c.namespaces == []
    else
      && ("" in c.namespaces ==> NAMESPACE_ALL in c.namespaces)
      && forall resource <- c.resources ::
           NamesFor(listing, resource).Some?
           && !("" in NamesFor(listing, resource).value && MatchesResourceName(compile, c, ""))
  }

  lemma ContainedNames(compile: Compiler, r: Rule, c: Rule, listing: Listing, resource: string)
    requires Contains(compile, r, c, listing) && Comparable(compile, c, listing)
    requires c.verbs != [] && resource in c.resources
    ensures NamesCovered(compile, r, c, NamesFor(listing, resource))
  {
    forall n | n in NamesFor(listing, resource).value && MatchesResourceName(compile, c, n)
      ensures MatchesResourceName(compile, r, n)
    {
      var a := Action(c.verbs[0], resource, n, "");
      assert c.verbs[0] in c.verbs && HasResourceType(c, resource);
      assert InScope(listing, a) && Allowed(compile, c, a);
      assert Allowed(compile, r, a);
    }
  }

  /** On comparable rules inclusion decides exactly semantic containment. */
  lemma RuleIncludesExact(compile: Compiler, r: Rule, c: Rule, listing: Listing)
    requires Comparable(compile, c, listing)
    ensures RuleIncludes(compile, r, c, listing) <==> Contains(compile, r, c, listing)
  {
    if RuleIncludes(compile, r, c, listing) {
      RuleIncludesSound(compile, r, c, listing);
    }
    if Contains(compile, r, c, listing) && c.verbs != [] && c.resources != [] {
      var v, t := c.verbs[0], c.resources[0];
      assert v in c.verbs && t in c.resources;
      forall verb | verb in c.verbs ensures HasVerb(r, verb) {
        var a := Action(verb, t, "", "");
        assert HasVerb(c, verb);
        assert InScope(listing, a) && Allowed(compile, c, a);
      }
      forall ns | ns in c.namespaces ensures HasNamespace(r, ns) {
        var a := Action(v, t, "", if ns == "" then NAMESPACE_ALL else ns);
        assert HasNamespace(c, a.namespace);
        assert InScope(listing, a) && Allowed(compile, c, a);
      }
      forall resource | resource in c.resources ensures ResourceCovered(compile, r, c, resource, listing) {
        var a := Action(v, resource, "", "");
        assert HasResourceType(c, resource);
        assert InScope(listing, a) && Allowed(compile, c, a);
        ContainedNames(compile, r, c, listing, resource);
        ResourceCoveredMeans(compile, r, c, resource, listing);
      }
    }
  }

  /** Some pattern matches this name and no other, as a quoted regular expression does. */
  ghost predicate OnlyMatches(compile: Compiler, pattern: string, name: string) {
    compile(pattern).Some? && forall n :: compile(pattern).value(n) <==> n == name
  }

  /** quote is regexp.QuoteMeta between anchors. */
  ghost predicate Quotes(compile: Compiler, quote: string -> string) {
    forall name :: OnlyMatches(compile, quote(name), name)
  }

  /** The non-empty ones of some names that a rule matches. */
  function MatchedNames(compile: Compiler, c: Rule, names: seq<string>): (r: seq<string>)
    ensures forall n :: n in r <==> n in names && n != "" && MatchesResourceName(compile, c, n)
  {
    if names == [] then []
    else
      var rest := MatchedNames(compile, c, names[1..]);
      if names[0] != "" && MatchesResourceName(compile, c, names[0]) then [names[0]] + rest else rest
  }

  function Quoted(quote: string -> string, names: seq<string>): seq<string> {
    if names == [] then [] else [quote(names[0])] + Quoted(quote, names[1..])
  }

  lemma OneMorePattern(compile: Compiler, r: Rule, pattern: string, name: string, n: string)
    requires OnlyMatches(compile, pattern, name)
    ensures MatchesResourceName(compile, r.(patterns := [pattern] + r.patterns), n)
       <==> n == name || MatchesResourceName(compile, r, n)
  {
    var patterns := [pattern] + r.patterns;
    assert pattern in patterns && forall q <- r.patterns :: q in patterns;
  }

  lemma {:induction false} QuotedMatches(compile: Compiler, quote: string -> string, c: Rule, names: seq<string>,
                                         n: string)
    requires Quotes(compile, quote)
    ensures MatchesResourceName(compile, c.(patterns := Quoted(quote, names)), n) <==> n in names
  {
    if names != [] {
      QuotedMatches(compile, quote, c, names[1..], n);
      assert OnlyMatches(compile, quote(names[0]), names[0]);
      OneMorePattern(compile, c.(patterns := Quoted(quote, names[1..])), quote(names[0]), names[0], n);
    }
  }

  function Listed(names: Option<seq<string>>): seq<string> {
    if names.Some? then names.value else []
  }

  /** A rule that contains the other without including it. */
  ghost predicate Missed(compile: Compiler, r: Rule, c: Rule, listing: Listing) {
    Contains(compile, r, c, listing) && !RuleIncludes(compile, r, c, listing)
  }

  lemma MissedWithoutGrants(compile: Compiler, c: Rule, listing: Listing)
    requires (c.verbs == [] || c.resources == []) && !Comparable(compile, c, listing)
    ensures Missed(compile, Rule([], [], [], []), c, listing)
  {
    var blank := Rule([], [], [], []);
    assert c.verbs != [] ==> c.verbs[0] in c.verbs && c.verbs[0] in multiset(c.verbs);
    assert c.resources != [] ==> c.resources[0] in c.resources && c.resources[0] in multiset(c.resources);
    assert c.namespaces != [] ==> c.namespaces[0] in c.namespaces && c.namespaces[0] in multiset(c.namespaces);
  }

  lemma MissedForNamespace(compile: Compiler, c: Rule, listing: Listing)
    requires "" in c.namespaces && NAMESPACE_ALL !in c.namespaces
    ensures Missed(compile, c.(namespaces := Removed(c.namespaces, "")), c, listing)
  {
    var r := c.(namespaces := Removed(c.namespaces, ""));
    assert "" in multiset(c.namespaces) && "" !in multiset(r.namespaces);
    assert forall ns :: ns != "" ==> HasNamespace(r, ns) == HasNamespace(c, ns);
    assert !HasNamespace(r, "");
  }

  lemma SameVerbsTwice(c: Rule, verb: string)
    ensures HasVerb(c.(verbs := c.verbs + c.verbs), verb) <==> HasVerb(c, verb)
  {
    assert forall v :: v in c.verbs + c.verbs <==> v in c.verbs;
  }

  lemma MissedForListing(compile: Compiler, c: Rule, listing: Listing, resource: string)
    requires c.verbs != [] && resource in c.resources && NamesFor(listing, resource).None?
    ensures Missed(compile, c.(verbs := c.verbs + c.verbs), c, listing)
  {
    var r := c.(verbs := c.verbs + c.verbs);
    assert |multiset(r.verbs)| == 2 * |c.verbs| > |multiset(c.verbs)|;
    forall a | InScope(listing, a) && Allowed(compile, c, a) ensures Allowed(compile, r, a) {
      SameVerbsTwice(c, a.verb);
    }
    ResourceCoveredMeans(compile, r, c, resource, listing);
  }

  function Pool(listing: Listing): seq<string> {
    Listed(listing.roles) + Listed(listing.users) + Listed(listing.templates)
  }

  lemma InPool(c: Rule, listing: Listing, a: Action)
    requires forall t <- c.resources :: NamesFor(listing, t).Some?
    requires InScope(listing, a) && HasResourceType(c, Normalised(a).resourceType) && Normalised(a).name != ""
    ensures Normalised(a).name in Pool(listing)
  {
    var t := Normalised(a).resourceType;
    var item :| item in c.resources && (item == RESOURCE_ALL || item == t);
    assert NamesFor(listing, item).Some?;
  }

  /** The candidate with its patterns replaced by the listed names they match, the empty one left out. */
  function Listable(compile: Compiler, quote: string -> string, c: Rule, listing: Listing): Rule {
    c.(patterns := Quoted(quote, MatchedNames(compile, c, Pool(listing))))
  }

  lemma MissedForEmptyName(compile: Compiler, quote: string -> string, c: Rule, listing: Listing, resource: string)
    requires Quotes(compile, quote) && resource in c.resources
    requires forall t <- c.resources :: NamesFor(listing, t).Some?
    requires "" in NamesFor(listing, resource).value && MatchesResourceName(compile, c, "")
    ensures Missed(compile, Listable(compile, quote, c, listing), c, listing)
  {
    var r := Listable(compile, quote, c, listing);
    forall a | InScope(listing, a) && Allowed(compile, c, a) ensures Allowed(compile, r, a) {
      var n := Normalised(a);
      if n.name != "" {
        InPool(c, listing, a);
        QuotedMatches(compile, quote, c, MatchedNames(compile, c, Pool(listing)), n.name);
      }
    }
    QuotedMatches(compile, quote, c, MatchedNames(compile, c, Pool(listing)), "");
    if SameRule(r, c) {
      SameRuleSameAnswers(compile, r, c, "");
    }
    ResourceCoveredMeans(compile, r, c, resource, listing);
  }

  lemma MissedBySome(compile: Compiler, quote: string -> string, c: Rule, listing: Listing)
    requires Quotes(compile, quote) && !Comparable(compile, c, listing)
    ensures exists r :: Missed(compile, r, c, listing)
  {
    if c.verbs == [] || c.resources == [] {
      MissedWithoutGrants(compile, c, listing);
    } else if "" in c.namespaces && NAMESPACE_ALL !in c.namespaces {
      MissedForNamespace(compile, c, listing);
    } else if resource :| resource in c.resources && NamesFor(listing, resource).None? {
      MissedForListing(compile, c, listing, resource);
    } else {
      var resource :| resource in c.resources && "" in NamesFor(listing, resource).value;
      MissedForEmptyName(compile, quote, c, listing, resource);
    }
  }

  /** Exactly for comparable candidates inclusion decides containment, whichever rule is to include them. */
  lemma ComparableExactly(compile: Compiler, quote: string -> string, c: Rule, listing: Listing)
    requires Quotes(compile, quote)
    ensures (forall r :: RuleIncludes(compile, r, c, listing) <==> Contains(compile, r, c, listing))
       <==> Comparable(compile, c, listing)
  {
    if Comparable(compile, c, listing) {
      forall r ensures RuleIncludes(compile, r, c, listing) <==> Contains(compile, r, c, listing) {
        RuleIncludesExact(compile, r, c, listing);
      }
    } else {
      MissedBySome(compile, quote, c, listing);
      var r :| Missed(compile, r, c, listing);
      assert RuleIncludes(compile, r, c, listing) != Contains(compile, r, c, listing);
    }
  }

  // ---- which actions containment reaches

  /** Whatever rule is included, by whatever rule, the action is contained. */
  ghost predicate AlwaysContained(compile: Compiler, listing: Listing, a: Action) {
    forall r, c :: RuleIncludes(compile, r, c, listing) && Allowed(compile, c, a) ==> Allowed(compile, r, a)
  }

  function Nameless(a: Action): Rule {
    Rule([a.verb], [a.resourceType], [], [NAMESPACE_ALL])
  }

  function NamedBy(a: Action, pattern: string): Rule {
    Nameless(a).(patterns := [pattern])
  }

  lemma OnePattern(compile: Compiler, a: Action, pattern: string, n: string)
    requires OnlyMatches(compile, pattern, a.name)
    ensures MatchesResourceName(compile, NamedBy(a, pattern), n) <==> n == a.name
    ensures !MatchesResourceName(compile, Nameless(a), n)
  {
    assert pattern in NamedBy(a, pattern).patterns;
  }

  lemma NamedByIncluded(compile: Compiler, listing: Listing, a: Action, pattern: string)
    requires OnlyMatches(compile, pattern, a.name) && !InScope(listing, a)
    ensures RuleIncludes(compile, Nameless(a), NamedBy(a, pattern), listing)
  {
    var r, c := Nameless(a), NamedBy(a, pattern);
    forall n | n in NamesFor(listing, a.resourceType).value ensures !MatchesResourceName(compile, c, n) {
      OnePattern(compile, a, pattern, n);
    }
    assert a.verb in r.verbs && NAMESPACE_ALL in r.namespaces && a.resourceType in r.resources;
    ResourceCoveredMeans(compile, r, c, a.resourceType, listing);
  }

  lemma NamedByAllows(compile: Compiler, a: Action, pattern: string)
    requires OnlyMatches(compile, pattern, a.name) && a.name != ""
    ensures RuleAllows(compile, NamedBy(a, pattern), a) && !RuleAllows(compile, Nameless(a), a)
  {
    OnePattern(compile, a, pattern, a.name);
    assert HasVerb(NamedBy(a, pattern), a.verb) by {
      assert a.verb in NamedBy(a, pattern).verbs;
    }
    assert HasResourceType(NamedBy(a, pattern), a.resourceType) by {
      assert a.resourceType in NamedBy(a, pattern).resources;
    }
    assert HasNamespace(NamedBy(a, pattern), a.namespace) by {
      assert NAMESPACE_ALL in NamedBy(a, pattern).namespaces;
    }
  }

  lemma OutOfScopeEscapes(compile: Compiler, listing: Listing, a: Action, pattern: string)
    requires OnlyMatches(compile, pattern, a.name) && !InScope(listing, a)
    ensures RuleIncludes(compile, Nameless(a), NamedBy(a, pattern), listing)
    ensures Allowed(compile, NamedBy(a, pattern), a) && !Allowed(compile, Nameless(a), a)
  {
    NamedByIncluded(compile, listing, a, pattern);
    NamedByAllows(compile, a, pattern);
  }

  /** Containment holds under inclusion for exactly the actions in scope: no other name is safe. */
  lemma ScopeExactly(compile: Compiler, listing: Listing, a: Action, pattern: string)
    requires OnlyMatches(compile, pattern, a.name)
    ensures AlwaysContained(compile, listing, a) <==> InScope(listing, a)
  {
    if InScope(listing, a) {
      forall r, c | RuleIncludes(compile, r, c, listing) && Allowed(compile, c, a) ensures Allowed(compile, r, a) {
        RuleIncludesSound(compile, r, c, listing);
      }
    } else {
      OutOfScopeEscapes(compile, listing, a, pattern);
    }
  }

  lemma UserIncludesSound(compile: Compiler, roles: seq<UserRole>, c: Rule, listing: Listing, a: Action)
    requires UserIncludesRule(compile, roles, c, listing)
    requires InScope(listing, a) && Allowed(compile, c, a)
    ensures RolesGrant(compile, roles, a)
  {
    var role :| role in roles && RoleIncludesRule(compile, role, c, listing);
    var rule :| rule in role.rules && RuleIncludes(compile, rule, c, listing);
    RuleIncludesSound(compile, rule, c, listing);
    assert RulesGrant(compile, role.rules, a);
  }
}
