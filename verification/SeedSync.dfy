// The reconciler itself: it collects the keys of the seed, deletes what is not listed,
// and upserts modules, features and actions in seed order, table by table in place.
module SeedSync {

  import opened Options
  import opened SeedModel
  import opened SeedTheorems

  class CatalogDb {
    var modules: map<string, ModuleRow>
    var features: map<string, FeatureRow>
    var actions: map<(Id, string), ActionRow>
    var planModules: set<(string, Id)>
    var planFeatures: set<(string, Id)>
    var nextId: Id

    ghost function Snapshot(): Catalog
      reads this
    {
      Catalog(modules, features, actions, planModules, planFeatures, nextId)
    }

    constructor (c: Catalog)
      ensures Snapshot() == c
    {
      modules, features, actions := c.modules, c.features, c.actions;
      planModules, planFeatures, nextId := c.planModules, c.planFeatures, c.nextId;
    }

    method DropFeatureRows(gone: set<string>)
      modifies this
      ensures Snapshot() == DropFeatures(old(Snapshot()), gone)
    {
      var ids := set k | k in gone && k in features :: features[k].id;
      features := features - gone;
      actions := map a | a in actions && a.0 !in ids :: actions[a];
      planFeatures := set l | l in planFeatures && l.1 !in ids;
    }

    method DeleteModulesNotIn(keys: seq<string>)
      modifies this
      ensures Snapshot() == DropModules(old(Snapshot()), NotIn(old(modules), keys))
    {
      var gone := set k | k in modules && k !in keys;
      var ids := set k | k in gone && k in modules :: modules[k].id;
      var orphans := set k | k in features && features[k].moduleId in ids;
      modules := modules - gone;
      planModules := set l | l in planModules && l.1 !in ids;
      DropFeatureRows(orphans);
    }

    method DeleteFeaturesNotIn(keys: seq<string>)
      modifies this
      ensures Snapshot() == DropFeatures(old(Snapshot()), NotIn(old(features), keys))
    {
      DropFeatureRows(set k | k in features && k !in keys);
    }

    method UpsertModuleRow(app: AppType, m: ModuleSpec) returns (id: Id)
      modifies this
      ensures Snapshot() == UpsertModule(old(Snapshot()), app, m) && id == modules[m.key].id
    {
      if m.key in modules {
        modules := modules[m.key := modules[m.key].(name := m.name, appType := app, path := Some(m.path), targets := m.targets)];
      } else {
        modules := modules[m.key := ModuleRow(nextId, m.name, app, Some(m.path), m.targets, None, true)];
        nextId := nextId + 1;
      }
      id := modules[m.key].id;
    }

    method UpsertFeatureRow(moduleId: Id, f: FeatureSpec) returns (id: Id)
      modifies this
      ensures Snapshot() == UpsertFeature(old(Snapshot()), moduleId, f) && id == features[f.key].id
    {
      if f.key in features {
        features := features[f.key := features[f.key].(name := f.name, moduleId := moduleId, path := Some(f.path), targets := f.targets)];
      } else {
        features := features[f.key := FeatureRow(nextId, moduleId, f.name, Some(f.path), f.targets, None)];
        nextId := nextId + 1;
      }
      id := features[f.key].id;
    }

    method DeleteActionsNotIn(featureId: Id, keys: seq<string>)
      modifies this
      ensures Snapshot() == DropActions(old(Snapshot()), featureId, keys)
    {
      actions := map a | a in actions && (a.0 != featureId || a.1 in keys) :: actions[a];
    }

    method UpsertActionRow(featureId: Id, key: string)
      modifies this
      ensures Snapshot() == UpsertAction(old(Snapshot()), featureId, key)
    {
      if (featureId, key) in actions {
        actions := actions[(featureId, key) := actions[(featureId, key)].(name := ActionName(key))];
      } else {
        actions := actions[(featureId, key) := ActionRow(nextId, ActionName(key))];
        nextId := nextId + 1;
      }
    }
  }

  lemma Assoc(x: seq<string>, y: seq<string>, z: seq<string>)
    ensures (x + y) + z == x + (y + z)
  {
  }

  lemma KeysOfSnoc(fs: seq<FeatureSpec>, k: nat)
    requires k < |fs|
    ensures FeatureKeysOf(fs[..k + 1]) == FeatureKeysOf(fs[..k]) + [fs[k].key]
  {
    assert fs[..k + 1][..k] == fs[..k];
  }

  lemma KeysInSnoc(ms: seq<ModuleSpec>, j: nat)
    requires j < |ms|
    ensures ModuleKeysIn(ms[..j + 1]) == ModuleKeysIn(ms[..j]) + [ms[j].key]
    ensures FeatureKeysIn(ms[..j + 1]) == FeatureKeysIn(ms[..j]) + FeatureKeysOf(ms[j].features)
  {
    assert ms[..j + 1][..j] == ms[..j];
  }

  lemma KeysSnoc(seed: seq<AppSpec>, i: nat)
    requires i < |seed|
    ensures ModuleKeys(seed[..i + 1]) == ModuleKeys(seed[..i]) + ModuleKeysIn(seed[i].modules)
    ensures FeatureKeys(seed[..i + 1]) == FeatureKeys(seed[..i]) + FeatureKeysIn(seed[i].modules)
  {
    assert seed[..i + 1][..i] == seed[..i];
  }

  method CollectKeys(seed: seq<AppSpec>) returns (moduleKeys: seq<string>, featureKeys: seq<string>)
    ensures moduleKeys == ModuleKeys(seed) && featureKeys == FeatureKeys(seed)
  {
    assert ModuleKeys([]) == [] && FeatureKeys([]) == [] && ModuleKeysIn([]) == [] && FeatureKeysIn([]) == [];
    assert FeatureKeysOf([]) == [];
    hide ModuleKeys, FeatureKeys, ModuleKeysIn, FeatureKeysIn, FeatureKeysOf;
    moduleKeys, featureKeys := [], [];
    for i := 0 to |seed|
      invariant moduleKeys == ModuleKeys(seed[..i]) && featureKeys == FeatureKeys(seed[..i])
    {
      var modules := seed[i].modules;
      ghost var m0, f0 := moduleKeys, featureKeys;
      for j := 0 to |modules|
        invariant moduleKeys == m0 + ModuleKeysIn(modules[..j])
        invariant featureKeys == f0 + FeatureKeysIn(modules[..j])
      {
        moduleKeys := moduleKeys + [modules[j].key];
        var features := modules[j].features;
        ghost var f1 := featureKeys;
        for k := 0 to |features|
          invariant featureKeys == f1 + FeatureKeysOf(features[..k])
        {
          featureKeys := featureKeys + [features[k].key];
          KeysOfSnoc(features, k);
          Assoc(f1, FeatureKeysOf(features[..k]), [features[k].key]);
        }
        assert features[..|features|] == features;
        KeysInSnoc(modules, j);
        Assoc(m0, ModuleKeysIn(modules[..j]), [modules[j].key]);
        Assoc(f0, FeatureKeysIn(modules[..j]), FeatureKeysOf(features));
      }
      assert modules[..|modules|] == modules;
      KeysSnoc(seed, i);
    }
    assert seed[..|seed|] == seed;
  }

  method SyncOneFeature(db: CatalogDb, moduleId: Id, f: FeatureSpec)
    modifies db
    ensures db.Snapshot() == SyncFeature(old(db.Snapshot()), moduleId, f)
  {
    var featureId := db.UpsertFeatureRow(moduleId, f);
    db.DeleteActionsNotIn(featureId, f.actions);
    ghost var before := db.Snapshot();
    for k := 0 to |f.actions|
      invariant db.Snapshot() == SyncActions(before, featureId, f.actions[..k])
    {
      db.UpsertActionRow(featureId, f.actions[k]);
      assert f.actions[..k + 1][..k] == f.actions[..k];
    }
    assert f.actions[..|f.actions|] == f.actions;
  }

  method SyncOneModule(db: CatalogDb, app: AppType, m: ModuleSpec)
    modifies db
    ensures db.Snapshot() == SyncModule(old(db.Snapshot()), app, m)
  {
    var moduleId := db.UpsertModuleRow(app, m);
    ghost var before := db.Snapshot();
    for k := 0 to |m.features|
      invariant db.Snapshot() == SyncFeatures(before, moduleId, m.features[..k])
    {
      SyncOneFeature(db, moduleId, m.features[k]);
      assert m.features[..k + 1][..k] == m.features[..k];
    }
    assert m.features[..|m.features|] == m.features;
  }

  // The whole reconciliation. Whatever the catalogue held before, it then holds exactly
  // the seed, as `Synced` spells out.
  method Sync(db: CatalogDb, seed: seq<AppSpec>)
    requires Consistent(db.Snapshot())
    requires Distinct(ModuleKeys(seed)) && Distinct(FeatureKeys(seed))
    modifies db
    ensures db.Snapshot() == SyncAll(old(db.Snapshot()), seed)
    ensures Synced(old(db.Snapshot()), SeedModules(seed), SeedFeatures(seed), db.Snapshot())
  {
    ghost var start := db.Snapshot();
    var moduleKeys, featureKeys := CollectKeys(seed);
    db.DeleteModulesNotIn(moduleKeys);
    db.DeleteFeaturesNotIn(featureKeys);
    ghost var pruned := db.Snapshot();
    assert pruned == Pruned(start, seed);
    hide Pruned, Consistent, SyncModule;
    for i := 0 to |seed|
      invariant db.Snapshot() == SyncApps(pruned, seed[..i])
    {
      var app := seed[i];
      for j := 0 to |app.modules|
        invariant db.Snapshot() == SyncModules(SyncApps(pruned, seed[..i]), app.appType, app.modules[..j])
      {
        SyncOneModule(db, app.appType, app.modules[j]);
        assert app.modules[..j + 1][..j] == app.modules[..j];
      }
      assert app.modules[..|app.modules|] == app.modules;
      assert seed[..i + 1][..i] == seed[..i];
    }
    assert seed[..|seed|] == seed;
    SeedConvergence(start, seed);
  }
}
