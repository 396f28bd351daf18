// The catalogue after a run, read against the seed row by row.
module SeedRows {

  import opened Options
  import opened SeedModel
  import opened SeedTheorems

  // ---- The display name of an action ----

  lemma {:induction false} SpacedAt(s: string)
    ensures |Spaced(s)| == |s|
    ensures forall i :: 0 <= i < |s| ==> Spaced(s)[i] == if s[i] == '_' then ' ' else s[i]
  {
    if s != "" {
      SpacedAt(s[1..]);
    }
  }

  // An action is shown by its key: the first character as a capital, every later
  // underscore as a space.
  lemma ActionNameIs(key: string)
    ensures |ActionName(key)| == |key|
    ensures key != "" ==> ActionName(key)[0] == if 'a' <= key[0] <= 'z' then (key[0] as int - 32) as char else key[0]
    ensures forall i :: 1 <= i < |key| ==> ActionName(key)[i] == if key[i] == '_' then ' ' else key[i]
  {
    if key != "" {
      SpacedAt(key[1..]);
    }
  }

  // ---- The dictionaries of the seed ----

  // The key stands for this module, listed under this application.
  predicate ModuleListed(seed: seq<AppSpec>, i: int, j: int, key: string, v: (AppType, ModuleSpec)) {
    0 <= i < |seed| && 0 <= j < |seed[i].modules| && seed[i].modules[j].key == key && v == (seed[i].appType, seed[i].modules[j])
  }

  // The key stands for this feature, listed under this module.
  predicate FeatureListed(seed: seq<AppSpec>, i: int, j: int, n: int, key: string, v: (string, FeatureSpec)) {
    && 0 <= i < |seed| && 0 <= j < |seed[i].modules| && 0 <= n < |seed[i].modules[j].features|
    && seed[i].modules[j].features[n].key == key
    && v == (seed[i].modules[j].key, seed[i].modules[j].features[n])
  }

  lemma {:induction false} ModuleDictFrom(app: AppType, ms: seq<ModuleSpec>, k: string) returns (j: int)
    requires k in ModuleDictIn(app, ms)
    ensures 0 <= j < |ms| && ms[j].key == k && ModuleDictIn(app, ms)[k] == (app, ms[j])
  {
    if ms[|ms| - 1].key == k {
      j := |ms| - 1;
    } else {
      j := ModuleDictFrom(app, ms[..|ms| - 1], k);
    }
  }

  lemma {:induction false} SeedModulesFrom(seed: seq<AppSpec>, k: string) returns (i: int, j: int)
    requires k in SeedModules(seed)
    ensures ModuleListed(seed, i, j, k, SeedModules(seed)[k])
  {
    var init, last := seed[..|seed| - 1], seed[|seed| - 1];
    if k in ModuleDictIn(last.appType, last.modules) {
      i := |seed| - 1;
      j := ModuleDictFrom(last.appType, last.modules, k);
    } else {
      i, j := SeedModulesFrom(init, k);
    }
  }

  lemma {:induction false} FeatureDictOfFrom(m: string, fs: seq<FeatureSpec>, k: string) returns (n: int)
    requires k in FeatureDictOf(m, fs)
    ensures 0 <= n < |fs| && fs[n].key == k && FeatureDictOf(m, fs)[k] == (m, fs[n])
  {
    if fs[|fs| - 1].key == k {
      n := |fs| - 1;
    } else {
      n := FeatureDictOfFrom(m, fs[..|fs| - 1], k);
    }
  }

  lemma {:induction false} FeatureDictInFrom(ms: seq<ModuleSpec>, k: string) returns (j: int, n: int)
    requires k in FeatureDictIn(ms)
    ensures 0 <= j < |ms| && 0 <= n < |ms[j].features| && ms[j].features[n].key == k
    ensures FeatureDictIn(ms)[k] == (ms[j].key, ms[j].features[n])
  {
    var last := ms[|ms| - 1];
    if k in FeatureDictOf(last.key, last.features) {
      j := |ms| - 1;
      n := FeatureDictOfFrom(last.key, last.features, k);
    } else {
      j, n := FeatureDictInFrom(ms[..|ms| - 1], k);
    }
  }

  lemma {:induction false} SeedFeaturesFrom(seed: seq<AppSpec>, k: string) returns (i: int, j: int, n: int)
    requires k in SeedFeatures(seed)
    ensures FeatureListed(seed, i, j, n, k, SeedFeatures(seed)[k])
  {
    var init, last := seed[..|seed| - 1], seed[|seed| - 1];
    if k in FeatureDictIn(last.modules) {
      i := |seed| - 1;
      j, n := FeatureDictInFrom(last.modules, k);
    } else {
      i, j, n := SeedFeaturesFrom(init, k);
    }
  }

  lemma {:induction false} ModuleDictAt(app: AppType, ms: seq<ModuleSpec>, j: nat)
    requires Distinct(ModuleKeysIn(ms)) && j < |ms|
    ensures ms[j].key in ModuleDictIn(app, ms) && ModuleDictIn(app, ms)[ms[j].key] == (app, ms[j])
    ensures ms[j].key in ModuleKeysIn(ms)
  {
    var init, last := ms[..|ms| - 1], ms[|ms| - 1];
    DistinctParts(ModuleKeysIn(init), [last.key]);
    if j < |init| {
      ModuleDictAt(app, init, j);
      assert last.key in [last.key];
    }
  }

  lemma {:induction false} SeedModulesAt(seed: seq<AppSpec>, i: nat, j: nat)
    requires Distinct(ModuleKeys(seed)) && i < |seed| && j < |seed[i].modules|
    ensures var m := seed[i].modules[j];
      m.key in ModuleKeys(seed) && m.key in SeedModules(seed) && SeedModules(seed)[m.key] == (seed[i].appType, m)
  {
    var init, last := seed[..|seed| - 1], seed[|seed| - 1];
    DistinctParts(ModuleKeys(init), ModuleKeysIn(last.modules));
    if i < |init| {
      SeedModulesAt(init, i, j);
      ModuleDictKeys(last.appType, last.modules);
    } else {
      ModuleDictAt(last.appType, last.modules, j);
    }
  }

  lemma {:induction false} FeatureDictOfAt(m: string, fs: seq<FeatureSpec>, n: nat)
    requires Distinct(FeatureKeysOf(fs)) && n < |fs|
    ensures fs[n].key in FeatureDictOf(m, fs) && FeatureDictOf(m, fs)[fs[n].key] == (m, fs[n])
    ensures fs[n].key in FeatureKeysOf(fs)
  {
    var init, last := fs[..|fs| - 1], fs[|fs| - 1];
    DistinctParts(FeatureKeysOf(init), [last.key]);
    if n < |init| {
      FeatureDictOfAt(m, init, n);
      assert last.key in [last.key];
    }
  }

  lemma {:induction false} FeatureDictInAt(ms: seq<ModuleSpec>, j: nat, n: nat)
    requires Distinct(FeatureKeysIn(ms)) && j < |ms| && n < |ms[j].features|
    ensures var f := ms[j].features[n];
      f.key in FeatureKeysIn(ms) && f.key in FeatureDictIn(ms) && FeatureDictIn(ms)[f.key] == (ms[j].key, f)
  {
    var init, last := ms[..|ms| - 1], ms[|ms| - 1];
    DistinctParts(FeatureKeysIn(init), FeatureKeysOf(last.features));
    if j < |init| {
      FeatureDictInAt(init, j, n);
      FeatureDictKeys(last.key, last.features);
    } else {
      FeatureDictOfAt(last.key, last.features, n);
    }
  }

  lemma {:induction false} SeedFeaturesAt(seed: seq<AppSpec>, i: nat, j: nat, n: nat)
    requires Distinct(FeatureKeys(seed)) && i < |seed| && j < |seed[i].modules| && n < |seed[i].modules[j].features|
    ensures var m := seed[i].modules[j];
      m.features[n].key in FeatureKeys(seed)
      && m.features[n].key in SeedFeatures(seed) && SeedFeatures(seed)[m.features[n].key] == (m.key, m.features[n])
  {
    var init, last := seed[..|seed| - 1], seed[|seed| - 1];
    DistinctParts(FeatureKeys(init), FeatureKeysIn(last.modules));
    if i < |init| {
      SeedFeaturesAt(init, i, j, n);
      ModuleDictKeys(last.appType, last.modules);
    } else {
      FeatureDictInAt(last.modules, j, n);
    }
  }

  // ---- The rows ----

  // Every module of the seed has its row, with the application it is listed under.
  lemma ModuleRowIs(before: Catalog, seed: seq<AppSpec>, i: nat, j: nat)
    requires Consistent(before) && Distinct(ModuleKeys(seed)) && Distinct(FeatureKeys(seed))
    requires i < |seed| && j < |seed[i].modules|
    ensures var m, d := seed[i].modules[j], SyncAll(before, seed);
      && m.key in d.modules
      && d.modules[m.key].name == m.name && d.modules[m.key].appType == seed[i].appType
      && d.modules[m.key].path == Some(m.path) && d.modules[m.key].targets == m.targets
  {
    SeedConvergence(before, seed);
    SeedModulesAt(seed, i, j);
    hide SyncAll, Consistent, FeatureSynced, ActionsSynced, LinksSynced, SeedModules, SeedFeatures, ModuleKeys, FeatureKeys;
  }

  // Every feature of the seed has its row, under the module it is listed in.
  lemma FeatureRowIs(before: Catalog, seed: seq<AppSpec>, i: nat, j: nat, n: nat)
    requires Consistent(before) && Distinct(ModuleKeys(seed)) && Distinct(FeatureKeys(seed))
    requires i < |seed| && j < |seed[i].modules| && n < |seed[i].modules[j].features|
    ensures var m, f, d := seed[i].modules[j], seed[i].modules[j].features[n], SyncAll(before, seed);
      && f.key in d.features && m.key in d.modules
      && d.features[f.key].name == f.name && d.features[f.key].moduleId == d.modules[m.key].id
      && d.features[f.key].path == Some(f.path) && d.features[f.key].targets == f.targets
  {
    SeedConvergence(before, seed);
    SeedFeaturesAt(seed, i, j, n);
    hide SyncAll, Consistent, ModuleDone, ActionsSynced, LinksSynced, SeedModules, SeedFeatures, ModuleKeys, FeatureKeys, Survives;
    var d, F := SyncAll(before, seed), SeedFeatures(seed);
    assert FeatureSynced(before, SeedModules(seed), F, d, seed[i].modules[j].features[n].key);
  }

  // A feature of the seed has exactly the actions listed for it, under their display names.
  lemma ActionRowsAre(before: Catalog, seed: seq<AppSpec>, i: nat, j: nat, n: nat, a: string)
    requires Consistent(before) && Distinct(ModuleKeys(seed)) && Distinct(FeatureKeys(seed))
    requires i < |seed| && j < |seed[i].modules| && n < |seed[i].modules[j].features|
    ensures var f, d := seed[i].modules[j].features[n], SyncAll(before, seed);
      && f.key in d.features
      && ((d.features[f.key].id, a) in d.actions <==> a in f.actions)
      && (a in f.actions ==> d.actions[(d.features[f.key].id, a)].name == ActionName(a))
  {
    SeedConvergence(before, seed);
    SeedFeaturesAt(seed, i, j, n);
    var d, F := SyncAll(before, seed), SeedFeatures(seed);
    hide SyncAll, ModuleDone, LinksSynced, SeedModules, SeedFeatures, ModuleKeys, FeatureKeys, LinksResolve, FeatureSynced, ActionName;
    var f := seed[i].modules[j].features[n];
    assert f.key in F && f.key in d.features;
    var id := d.features[f.key].id;
    if (id, a) in d.actions {
      assert Listed(F, d, (id, a));
      var k :| k in F && k in d.features && d.features[k].id == id && a in F[k].1.actions;
      assert k == f.key;
    }
    if a in f.actions {
      assert Listed(F, d, (id, a));
    }
  }

  // There are no other rows.
  lemma NoOtherRows(before: Catalog, seed: seq<AppSpec>)
    requires Consistent(before) && Distinct(ModuleKeys(seed)) && Distinct(FeatureKeys(seed))
    ensures var d := SyncAll(before, seed);
      && (forall k :: k in d.modules ==> exists i, j, v :: ModuleListed(seed, i, j, k, v))
      && (forall k :: k in d.features ==> exists i, j, n, v :: FeatureListed(seed, i, j, n, k, v))
      && (forall a :: a in d.actions ==> HasFeatureId(d, a.0))
  {
    SeedConvergence(before, seed);
    var d := SyncAll(before, seed);
    hide SyncAll, ModuleDone, FeatureSynced, ActionsSynced, LinksSynced, ModuleListed, FeatureListed, HasFeatureId, IdsUnique, ModuleLinks;
    forall k | k in d.modules ensures exists i, j, v :: ModuleListed(seed, i, j, k, v) {
      var i, j := SeedModulesFrom(seed, k);
    }
    forall k | k in d.features ensures exists i, j, n, v :: FeatureListed(seed, i, j, n, k, v) {
      var i, j, n := SeedFeaturesFrom(seed, k);
    }
  }
}
