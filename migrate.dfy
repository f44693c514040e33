/** scripts/migrate-metadata.js: one pass over the stored routes builds,
    per domain, how many routes use each module and how often each tag
    occurs together with the modules that used it, then reports the totals. */
module Migrate {
  import opened Text
  import opened Sorting
  import opened ManageCsv

  /** The usage record of one tag of one domain (`lastUsed` is always null
      here and is not kept). */
  datatype TagUsage = TagUsage(count: nat, modules: seq<string>)

  /** The metadata object: `domains` lists the keys of `modulesUsage` in
      insertion order, as `Object.keys` does. */
  datatype Metadata = Metadata(
    domains: seq<string>,
    modulesUsage: map<string, map<string, nat>>,
    tagsUsage: map<string, map<string, TagUsage>>)

  const Empty := Metadata([], map[], map[])

  /** The domain with one leading "www." removed. */
  function RouteDomain(r: ManagedRoute): string {
    if StartsWith(r.domain, "www.") then r.domain[4..] else r.domain
  }

  /** The module, "General" when missing. */
  function RouteModule(r: ManagedRoute): string {
    if r.moduleName == "" then "General" else r.moduleName
  }

  /** The tags: split on "|", trimmed, empty ones dropped. */
  function RouteTags(r: ManagedRoute): seq<string> {
    Pieces(r.tags, '|')
  }

  // ------------------------------------------------------ the aggregation

  /** One tag of a route: its count goes up by one and the module is
      added to its list unless already there; an empty tag is skipped. */
  function TagStep(usage: map<string, TagUsage>, tag: string, moduleName: string): map<string, TagUsage> {
    if tag == "" then usage
    else
      var u := if tag in usage then usage[tag] else TagUsage(0, []);
      usage[tag := TagUsage(u.count + 1, if moduleName in u.modules then u.modules else u.modules + [moduleName])]
  }

  /** All the tags of a route, in order. */
  function TagSteps(usage: map<string, TagUsage>, tags: seq<string>, moduleName: string): map<string, TagUsage>
    decreases |tags|
  {
    if |tags| == 0 then usage
    else TagStep(TagSteps(usage, tags[..|tags| - 1], moduleName), tags[|tags| - 1], moduleName)
  }

  /** One route of the `forEach`; a route whose domain is empty after
      removing "www." is skipped. */
  function Step(meta: Metadata, r: ManagedRoute): Metadata {
    var d := RouteDomain(r);
    if d == "" then meta
    else
      var m := RouteModule(r);
      var mods := if d in meta.modulesUsage then meta.modulesUsage[d] else map[];
      var tags := if d in meta.tagsUsage then meta.tagsUsage[d] else map[];
      Metadata(
        if d in meta.modulesUsage then meta.domains else meta.domains + [d],
        meta.modulesUsage[d := mods[m := (if m in mods then mods[m] else 0) + 1]],
        meta.tagsUsage[d := TagSteps(tags, RouteTags(r), m)])
  }

  /** The metadata after the `forEach` has read `routes`. */
  function Aggregate(routes: seq<ManagedRoute>): Metadata
    decreases |routes|
  {
    if |routes| == 0 then Empty else Step(Aggregate(routes[..|routes| - 1]), routes[|routes| - 1])
  }

  // ------------------------------------------------- reference definitions

  /** The number of routes of domain `d` with module `m`. */
  function ModuleCount(routes: seq<ManagedRoute>, d: string, m: string): nat
    decreases |routes|
  {
    if |routes| == 0 then 0
    else
      var r := routes[|routes| - 1];
      ModuleCount(routes[..|routes| - 1], d, m) + (if d != "" && RouteDomain(r) == d && RouteModule(r) == m then 1 else 0)
  }

  /** How often `t` occurs in a list of tags. */
  function Occurrences(tags: seq<string>, t: string): nat
    decreases |tags|
  {
    if |tags| == 0 then 0
    else Occurrences(tags[..|tags| - 1], t) + (if tags[|tags| - 1] == t then 1 else 0)
  }

  /** The number of occurrences of tag `t` over the routes of domain `d`. */
  function TagCount(routes: seq<ManagedRoute>, d: string, t: string): nat
    decreases |routes|
  {
    if |routes| == 0 then 0
    else
      var r := routes[|routes| - 1];
      TagCount(routes[..|routes| - 1], d, t) + (if d != "" && RouteDomain(r) == d then Occurrences(RouteTags(r), t) else 0)
  }

  /** The modules of the routes of domain `d` that carry tag `t`. */
  function TagModules(routes: seq<ManagedRoute>, d: string, t: string): set<string> {
    set r | r in routes && d != "" && RouteDomain(r) == d && t in RouteTags(r) :: RouteModule(r)
  }

  /** The domains that have a route. */
  function RouteDomains(routes: seq<ManagedRoute>): set<string> {
    set r | r in routes && RouteDomain(r) != "" :: RouteDomain(r)
  }

  /** The stored module count, 0 when absent. */
  function ModuleUses(meta: Metadata, d: string, m: string): nat {
    if d in meta.modulesUsage && m in meta.modulesUsage[d] then meta.modulesUsage[d][m] else 0
  }

  function TagUses(usage: map<string, TagUsage>, t: string): nat {
    if t in usage then usage[t].count else 0
  }

  function TagModuleSet(usage: map<string, TagUsage>, t: string): set<string> {
    if t in usage then set m | m in usage[t].modules else {}
  }

  function DomainTags(meta: Metadata, d: string): map<string, TagUsage> {
    if d in meta.tagsUsage then meta.tagsUsage[d] else map[]
  }

  /** Every stored count is at least one and no module list repeats. */
  predicate UsageOk(usage: map<string, TagUsage>) {
    forall t :: t in usage ==> usage[t].count >= 1 && Distinct(usage[t].modules)
  }

  /** Both objects have the same domain keys, listed once each in
      `domains`. */
  ghost predicate KeysOk(meta: Metadata) {
    && Distinct(meta.domains)
    && (forall d :: d in meta.modulesUsage <==> d in meta.domains)
    && (forall d :: d in meta.tagsUsage <==> d in meta.domains)
  }

  /** Every stored count is positive and no module list repeats. */
  predicate CountsOk(meta: Metadata) {
    && (forall d, m :: d in meta.modulesUsage && m in meta.modulesUsage[d] ==> meta.modulesUsage[d][m] >= 1)
    && (forall d :: d in meta.tagsUsage ==> UsageOk(meta.tagsUsage[d]))
  }

  /** The shape the aggregation keeps. */
  ghost predicate MetaOk(meta: Metadata) {
    KeysOk(meta) && CountsOk(meta)
  }

  // ------------------------------------------------------------- lemmas

  lemma TagStepOk(usage: map<string, TagUsage>, tag: string, m: string)
    requires UsageOk(usage)
    ensures UsageOk(TagStep(usage, tag, m))
  {
    if tag != "" {
      var u := if tag in usage then usage[tag] else TagUsage(0, []);
      if m !in u.modules {
        var mods := u.modules + [m];
        forall i, j | 0 <= i < j < |mods| ensures mods[i] != mods[j] {
          if j == |u.modules| {
            assert mods[i] in u.modules;
          } else {
            assert mods[i] == u.modules[i] && mods[j] == u.modules[j];
          }
        }
      }
    }
  }

  lemma TagStepModules(usage: map<string, TagUsage>, tag: string, m: string, t: string)
    requires t != ""
    ensures TagModuleSet(TagStep(usage, tag, m), t) == TagModuleSet(usage, t) + (if tag == t then {m} else {})
  {
    if tag == t {
      var u := if tag in usage then usage[tag] else TagUsage(0, []);
      var mods := if m in u.modules then u.modules else u.modules + [m];
      assert (set x | x in mods) == (set x | x in u.modules) + {m};
    }
  }

  /** Running the tags of one route keeps every count positive and every
      module list free of repeats. */
  lemma {:induction false} TagStepsOk(usage: map<string, TagUsage>, tags: seq<string>, m: string)
    requires UsageOk(usage)
    ensures UsageOk(TagSteps(usage, tags, m))
    decreases |tags|
  {
    if |tags| > 0 {
      TagStepsOk(usage, tags[..|tags| - 1], m);
      TagStepOk(TagSteps(usage, tags[..|tags| - 1], m), tags[|tags| - 1], m);
    }
  }

  /** Running the tags of one route adds their occurrences to the counts. */
  lemma {:induction false} TagStepsCount(usage: map<string, TagUsage>, tags: seq<string>, m: string, t: string)
    requires t != ""
    ensures TagUses(TagSteps(usage, tags, m), t) == TagUses(usage, t) + Occurrences(tags, t)
    decreases |tags|
  {
    if |tags| > 0 {
      TagStepsCount(usage, tags[..|tags| - 1], m, t);
    }
  }

  /** Running the tags of one route adds the route's module to the list of
      each tag it carries. */
  lemma {:induction false} TagStepsModules(usage: map<string, TagUsage>, tags: seq<string>, m: string, t: string)
    requires t != ""
    ensures TagModuleSet(TagSteps(usage, tags, m), t) == TagModuleSet(usage, t) + (if t in tags then {m} else {})
    decreases |tags|
  {
    if |tags| > 0 {
      var init := tags[..|tags| - 1];
      var last := tags[|tags| - 1];
      TagStepsModules(usage, init, m, t);
      TagStepModules(TagSteps(usage, init, m), last, m, t);
      assert tags == init + [last];
      assert (t in tags) == (t in init || t == last);
    }
  }

  /** A route touches only the tag object of its own domain. */
  lemma StepDomainTags(meta: Metadata, r: ManagedRoute, d: string)
    ensures DomainTags(Step(meta, r), d) ==
      if d != "" && RouteDomain(r) == d then TagSteps(DomainTags(meta, d), RouteTags(r), RouteModule(r))
      else DomainTags(meta, d)
  {
  }

  lemma StepKeys(meta: Metadata, r: ManagedRoute)
    requires KeysOk(meta)
    ensures KeysOk(Step(meta, r))
  {
    var d := RouteDomain(r);
    if d != "" && d !in meta.domains {
      var next := Step(meta, r).domains;
      forall i, j | 0 <= i < j < |next| ensures next[i] != next[j] {
        if j == |meta.domains| {
          assert next[i] in meta.domains;
        } else {
          assert next[i] == meta.domains[i] && next[j] == meta.domains[j];
        }
      }
    }
  }

  lemma StepCounts(meta: Metadata, r: ManagedRoute)
    requires CountsOk(meta)
    ensures CountsOk(Step(meta, r))
  {
    var d := RouteDomain(r);
    if d != "" {
      var next := Step(meta, r);
      var mods := if d in meta.modulesUsage then meta.modulesUsage[d] else map[];
      var m := RouteModule(r);
      assert next.modulesUsage == meta.modulesUsage[d := mods[m := (if m in mods then mods[m] else 0) + 1]];
      assert next.tagsUsage == meta.tagsUsage[d := TagSteps(DomainTags(meta, d), RouteTags(r), m)];
      TagStepsOk(DomainTags(meta, d), RouteTags(r), m);
      forall e, k | e in next.modulesUsage && k in next.modulesUsage[e] ensures next.modulesUsage[e][k] >= 1 {
        if e != d {
          assert next.modulesUsage[e] == meta.modulesUsage[e];
        }
      }
      forall e | e in next.tagsUsage ensures UsageOk(next.tagsUsage[e]) {
        if e != d {
          assert next.tagsUsage[e] == meta.tagsUsage[e];
        }
      }
    }
  }

  /** The aggregation keeps the domain keys in step and every count
      positive. */
  lemma {:induction false} AggregateOk(routes: seq<ManagedRoute>)
    ensures MetaOk(Aggregate(routes))
    decreases |routes|
  {
    if |routes| > 0 {
      AggregateOk(routes[..|routes| - 1]);
      StepKeys(Aggregate(routes[..|routes| - 1]), routes[|routes| - 1]);
      StepCounts(Aggregate(routes[..|routes| - 1]), routes[|routes| - 1]);
    }
  }

  /** `modulesUsage[d][m].count` is the number of routes of domain `d`
      with module `m` (0 meaning absent). */
  lemma {:induction false} AggregateModules(routes: seq<ManagedRoute>, d: string, m: string)
    ensures ModuleUses(Aggregate(routes), d, m) == ModuleCount(routes, d, m)
    decreases |routes|
  {
    if |routes| > 0 {
      AggregateModules(routes[..|routes| - 1], d, m);
    }
  }

  /** `tagsUsage[d][t].count` is the number of occurrences of `t` over the
      routes of domain `d`. */
  lemma {:induction false} AggregateTagCount(routes: seq<ManagedRoute>, d: string, t: string)
    requires t != ""
    ensures TagUses(DomainTags(Aggregate(routes), d), t) == TagCount(routes, d, t)
    decreases |routes|
  {
    if |routes| > 0 {
      var init := routes[..|routes| - 1];
      var r := routes[|routes| - 1];
      AggregateTagCount(init, d, t);
      StepDomainTags(Aggregate(init), r, d);
      TagStepsCount(DomainTags(Aggregate(init), d), RouteTags(r), RouteModule(r), t);
    }
  }

  /** The module list of `tagsUsage[d][t]` holds exactly the modules of the
      routes of domain `d` that carry `t`. */
  lemma {:induction false} AggregateTagModules(routes: seq<ManagedRoute>, d: string, t: string)
    requires t != ""
    ensures TagModuleSet(DomainTags(Aggregate(routes), d), t) == TagModules(routes, d, t)
    decreases |routes|
  {
    if |routes| > 0 {
      var init := routes[..|routes| - 1];
      var r := routes[|routes| - 1];
      AggregateTagModules(init, d, t);
      StepDomainTags(Aggregate(init), r, d);
      TagStepsModules(DomainTags(Aggregate(init), d), RouteTags(r), RouteModule(r), t);
      TagModulesSnoc(routes, d, t);
    }
  }

  lemma TagModulesSnoc(routes: seq<ManagedRoute>, d: string, t: string)
    requires |routes| > 0
    ensures TagModules(routes, d, t) == TagModules(routes[..|routes| - 1], d, t)
      + (if d != "" && RouteDomain(routes[|routes| - 1]) == d && t in RouteTags(routes[|routes| - 1])
         then {RouteModule(routes[|routes| - 1])} else {})
  {
    ImageSnoc(routes, RouteModule, (r: ManagedRoute) => d != "" && RouteDomain(r) == d && t in RouteTags(r));
  }

  lemma RouteDomainsSnoc(routes: seq<ManagedRoute>)
    requires |routes| > 0
    ensures RouteDomains(routes) == RouteDomains(routes[..|routes| - 1])
      + (if RouteDomain(routes[|routes| - 1]) != "" then {RouteDomain(routes[|routes| - 1])} else {})
  {
    ImageSnoc(routes, RouteDomain, (r: ManagedRoute) => RouteDomain(r) != "");
  }

  /** A domain gets entries exactly when one of its routes is read. */
  lemma {:induction false} AggregateDomains(routes: seq<ManagedRoute>)
    ensures forall d :: d in Aggregate(routes).modulesUsage <==> d in RouteDomains(routes)
    decreases |routes|
  {
    if |routes| > 0 {
      AggregateDomains(routes[..|routes| - 1]);
      RouteDomainsSnoc(routes);
    }
  }

  /** A tag's module list never repeats a module, and a tag is recorded
      exactly when it occurs. */
  lemma AggregateTagShape(routes: seq<ManagedRoute>, d: string, t: string)
    requires t != ""
    ensures var usage := DomainTags(Aggregate(routes), d);
      && (t in usage <==> TagCount(routes, d, t) > 0)
      && (t in usage ==> Distinct(usage[t].modules))
  {
    AggregateOk(routes);
    AggregateTagCount(routes, d, t);
  }

  // ------------------------------------------------------------- totals

  /** `Object.values(usage).reduce((sum, inner) => sum + Object.keys(inner).length, 0)`. */
  function SumSizes<V>(keys: seq<string>, usage: map<string, map<string, V>>): nat
    decreases |keys|
  {
    if |keys| == 0 then 0
    else
      var d := keys[|keys| - 1];
      SumSizes(keys[..|keys| - 1], usage) + (if d in usage then |usage[d].Keys| else 0)
  }

  /** The (domain, key) pairs of a nested object, over some domains. */
  function Pairs<V>(keys: set<string>, usage: map<string, map<string, V>>): set<(string, string)> {
    set d, k | d in keys && d in usage && k in usage[d] :: (d, k)
  }

  /** The three totals of the report: domains, distinct (domain, module)
      pairs and distinct (domain, tag) pairs. */
  datatype Totals = Totals(domains: nat, modules: nat, tags: nat)

  function Summary(meta: Metadata): Totals {
    Totals(|meta.domains|, SumSizes(meta.domains, meta.modulesUsage), SumSizes(meta.domains, meta.tagsUsage))
  }

  /** The pairs of one domain. */
  function Row<V>(d: string, usage: map<string, map<string, V>>): set<(string, string)> {
    if d in usage then set k | k in usage[d] :: (d, k) else {}
  }

  lemma {:induction false} TaggedCard(d: string, inner: set<string>)
    ensures |set k | k in inner :: (d, k)| == |inner|
    decreases |inner|
  {
    if inner != {} {
      var x :| x in inner;
      TaggedCard(d, inner - {x});
      assert (set k | k in inner :: (d, k)) == (set k | k in inner - {x} :: (d, k)) + {(d, x)};
    }
  }

  lemma PairsAdd<V>(keys: set<string>, d: string, usage: map<string, map<string, V>>)
    requires d !in keys
    ensures Pairs(keys + {d}, usage) == Pairs(keys, usage) + Row(d, usage)
    ensures Pairs(keys, usage) !! Row(d, usage)
  {
  }

  lemma SetOfSnoc(init: seq<string>, last: string)
    ensures (set x | x in init + [last]) == (set x | x in init) + {last}
  {
  }

  /** Summing the inner sizes counts the pairs. */
  lemma {:induction false} SumSizesPairs<V>(keys: seq<string>, usage: map<string, map<string, V>>)
    requires Distinct(keys)
    ensures SumSizes(keys, usage) == |Pairs((set d | d in keys), usage)|
    decreases |keys|
  {
    if |keys| > 0 {
      var init := keys[..|keys| - 1];
      var d := keys[|keys| - 1];
      assert Distinct(init);
      SumSizesPairs(init, usage);
      SetOfSnoc(init, d);
      assert keys == init + [d];
      assert d !in init;
      PairsAdd((set x | x in init), d, usage);
      if d in usage {
        TaggedCard(d, usage[d].Keys);
      }
    }
  }

  /** The report counts the domains, the (domain, module) pairs and the
      (domain, tag) pairs. */
  lemma SummaryCounts(routes: seq<ManagedRoute>)
    ensures var meta := Aggregate(routes);
      && Summary(meta).domains == |RouteDomains(routes)|
      && Summary(meta).modules == |Pairs(RouteDomains(routes), meta.modulesUsage)|
      && Summary(meta).tags == |Pairs(RouteDomains(routes), meta.tagsUsage)|
  {
    var meta := Aggregate(routes);
    AggregateOk(routes);
    AggregateDomains(routes);
    assert (set d | d in meta.domains) == RouteDomains(routes);
    SumSizesPairs(meta.domains, meta.modulesUsage);
    SumSizesPairs(meta.domains, meta.tagsUsage);
    DistinctCard(meta.domains);
  }

  lemma {:induction false} DistinctCard(s: seq<string>)
    requires Distinct(s)
    ensures |set x | x in s| == |s|
    decreases |s|
  {
    if |s| > 0 {
      var init := s[..|s| - 1];
      var last := s[|s| - 1];
      assert s == init + [last];
      assert last !in init;
      DistinctCard(init);
      SetOfSnoc(init, last);
    }
  }

  // ------------------------------------------------------------ methods

  /** One tag of the inner `forEach`, updating the domain's tag object. */
  method TrackTags(usage: map<string, TagUsage>, tags: seq<string>, moduleName: string)
    returns (result: map<string, TagUsage>)
    ensures result == TagSteps(usage, tags, moduleName)
  {
    result := usage;
    for i := 0 to |tags|
      invariant result == TagSteps(usage, tags[..i], moduleName)
    {
      assert tags[..i + 1][..i] == tags[..i];
      var tag := tags[i];
      if tag == "" {
        continue;
      }
      var tagData := if tag in result then result[tag] else TagUsage(0, []);
      var modules := tagData.modules;
      if moduleName !in modules {
        modules := modules + [moduleName];
      }
      result := result[tag := TagUsage(tagData.count + 1, modules)];
    }
    assert tags[..|tags|] == tags;
  }

  /** The body of the outer `forEach`: one route read into the metadata. */
  method TrackRoute(meta: Metadata, route: ManagedRoute) returns (next: Metadata)
    ensures next == Step(meta, route)
  {
    var domain := RouteDomain(route);
    if domain == "" {
      return meta;
    }
    var moduleName := RouteModule(route);
    var domainOrder := meta.domains;
    if domain !in meta.modulesUsage {
      domainOrder := domainOrder + [domain];
    }
    var mods := if domain in meta.modulesUsage then meta.modulesUsage[domain] else map[];
    var count := if moduleName in mods then mods[moduleName] else 0;
    var tagsOfDomain := if domain in meta.tagsUsage then meta.tagsUsage[domain] else map[];
    var tagsAfter := TrackTags(tagsOfDomain, RouteTags(route), moduleName);
    next := Metadata(domainOrder, meta.modulesUsage[domain := mods[moduleName := count + 1]],
                     meta.tagsUsage[domain := tagsAfter]);
  }

  /** `migrateExistingRoutes` with the stored routes: nothing for an empty
      list, otherwise the metadata and the report's totals. */
  method MigrateExistingRoutes(routes: seq<ManagedRoute>) returns (result: Option<(Metadata, Totals)>)
    ensures routes == [] ==> result == None
    ensures routes != [] ==> result == Some((Aggregate(routes), Summary(Aggregate(routes))))
  {
    if |routes| == 0 {
      return None;
    }
    var meta := Empty;
    for i := 0 to |routes|
      invariant meta == Aggregate(routes[..i])
    {
      assert routes[..i + 1][..i] == routes[..i];
      meta := TrackRoute(meta, routes[i]);
    }
    assert routes[..|routes|] == routes;
    result := Some((meta, Summary(meta)));
  }
}
