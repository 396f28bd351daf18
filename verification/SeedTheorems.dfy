// What a run of the seed reconciler leaves behind, whatever it started from.
module SeedTheorems {

  import opened Options
  import opened SeedModel

  // ---- The seed as dictionaries ----

  // Module key to application and module; feature key to module key and feature.
  type ModuleDict = map<string, (AppType, ModuleSpec)>
  type FeatureDict = map<string, (string, FeatureSpec)>

  function FeatureDictOf(m: string, fs: seq<FeatureSpec>): FeatureDict {
    if fs == [] then map[]
    else FeatureDictOf(m, fs[..|fs| - 1])[fs[|fs| - 1].key := (m, fs[|fs| - 1])]
  }

  function ModuleDictIn(app: AppType, ms: seq<ModuleSpec>): ModuleDict {
    if ms == [] then map[]
    else ModuleDictIn(app, ms[..|ms| - 1])[ms[|ms| - 1].key := (app, ms[|ms| - 1])]
  }

  function FeatureDictIn(ms: seq<ModuleSpec>): FeatureDict {
    if ms == [] then map[]
    else FeatureDictIn(ms[..|ms| - 1]) + FeatureDictOf(ms[|ms| - 1].key, ms[|ms| - 1].features)
  }

  function SeedModules(seed: seq<AppSpec>): ModuleDict {
    if seed == [] then map[]
    else SeedModules(seed[..|seed| - 1]) + ModuleDictIn(seed[|seed| - 1].appType, seed[|seed| - 1].modules)
  }

  function SeedFeatures(seed: seq<AppSpec>): FeatureDict {
    if seed == [] then map[]
    else SeedFeatures(seed[..|seed| - 1]) + FeatureDictIn(seed[|seed| - 1].modules)
  }

  // ---- Rows as the seed asks for them ----

  // The row of a seeded module: seeded columns from the seed; id, description and active
  // flag from the row `b` had under this key, or fresh ones.
  predicate ModuleDone(b: Catalog, d: Catalog, k: string, app: AppType, m: ModuleSpec) {
    && k in d.modules
    && var row := d.modules[k];
    && row.name == m.name && row.appType == app && row.path == Some(m.path) && row.targets == m.targets
    && if k in b.modules
       then row.id == b.modules[k].id && row.description == b.modules[k].description && row.isActive == b.modules[k].isActive
       else row.id >= b.nextId && row.description == None && row.isActive
  }

  predicate FeatureDone(b: Catalog, d: Catalog, k: string, mk: string, f: FeatureSpec) {
    && k in d.features && mk in d.modules
    && var row := d.features[k];
    && row.name == f.name && row.moduleId == d.modules[mk].id && row.path == Some(f.path) && row.targets == f.targets
    && if k in b.features then row.id == b.features[k].id && row.description == b.features[k].description
       else row.id >= b.nextId && row.description == None
  }

  // The feature with this id has exactly the listed actions, with their ids kept where
  // `b` had them.
  predicate ActionDone(b: Catalog, d: Catalog, id: Id, actions: seq<string>, a: string) {
    && ((id, a) in d.actions <==> a in actions)
    && (a in actions ==>
          && d.actions[(id, a)].name == ActionName(a)
          && if (id, a) in b.actions then d.actions[(id, a)].id == b.actions[(id, a)].id
             else d.actions[(id, a)].id >= b.nextId)
  }

  ghost predicate ActionsDone(b: Catalog, d: Catalog, id: Id, actions: seq<string>) {
    forall a :: ActionDone(b, d, id, actions, a)
  }

  ghost predicate DoneFeatureId(d: Catalog, pf: FeatureDict, id: Id) {
    exists k :: k in pf && k in d.features && d.features[k].id == id
  }

  // ---- Progress of the loops ----

  // From `b`, the modules `pm` and the features `pf` have been synchronised.
  ghost predicate Progress(b: Catalog, d: Catalog, pm: ModuleDict, pf: FeatureDict) {
    && ModuleProgress(b, d, pm)
    && FeatureProgress(b, d, pm, pf)
    && ActionProgress(b, d, pf)
    && d.planModules == b.planModules && d.planFeatures == b.planFeatures
    && d.nextId >= b.nextId
    && Consistent(d)
  }

  ghost predicate ModuleProgress(b: Catalog, d: Catalog, pm: ModuleDict) {
    && (forall k :: k in pm ==> ModuleDone(b, d, k, pm[k].0, pm[k].1))
    && (forall k :: k !in pm ==> (k in d.modules <==> k in b.modules) && (k in d.modules ==> d.modules[k] == b.modules[k]))
  }

  ghost predicate FeatureProgress(b: Catalog, d: Catalog, pm: ModuleDict, pf: FeatureDict) {
    && (forall k :: k in pf ==> pf[k].0 in pm && FeatureDone(b, d, k, pf[k].0, pf[k].1))
    && (forall k :: k !in pf ==> (k in d.features <==> k in b.features) && (k in d.features ==> d.features[k] == b.features[k]))
  }

  ghost predicate ActionProgress(b: Catalog, d: Catalog, pf: FeatureDict) {
    && (forall k :: k in pf && k in d.features ==> ActionsDone(b, d, d.features[k].id, pf[k].1.actions))
    && (forall a: (Id, string) :: !DoneFeatureId(d, pf, a.0) ==> SameAction(b, d, a))
  }

  predicate SameAction(b: Catalog, d: Catalog, a: (Id, string)) {
    (a in d.actions <==> a in b.actions) && (a in d.actions ==> d.actions[a] == b.actions[a])
  }

  // ---- Consistency of the upserts ----

  ghost predicate KeepsModuleIds(d: Catalog, t: Catalog) {
    forall id :: HasModuleId(d, id) ==> HasModuleId(t, id)
  }

  ghost predicate KeepsFeatureIds(d: Catalog, t: Catalog) {
    forall id :: HasFeatureId(d, id) ==> HasFeatureId(t, id)
  }

  lemma UpsertModuleIds(d: Catalog, app: AppType, m: ModuleSpec)
    ensures var t := UpsertModule(d, app, m); KeepsModuleIds(d, t) && KeepsFeatureIds(d, t)
  {
    var t := UpsertModule(d, app, m);
    forall id | HasModuleId(d, id) ensures HasModuleId(t, id) {
      var k :| k in d.modules && d.modules[k].id == id;
      assert t.modules[k].id == id;
    }
  }

  lemma UpsertModuleUnique(d: Catalog, app: AppType, m: ModuleSpec)
    requires IdsUnique(d)
    ensures IdsUnique(UpsertModule(d, app, m))
  {
    var t := UpsertModule(d, app, m);
    assert t.features == d.features && t.actions == d.actions && t.nextId >= d.nextId;
    assert forall k :: k in t.modules && k != m.key ==> k in d.modules && t.modules[k] == d.modules[k];
    assert t.modules[m.key].id == if m.key in d.modules then d.modules[m.key].id else d.nextId;
    assert m.key !in d.modules ==> t.nextId == d.nextId + 1;
    hide UpsertModule;
  }

  lemma UpsertFeatureUnique(d: Catalog, moduleId: Id, f: FeatureSpec)
    requires IdsUnique(d)
    ensures IdsUnique(UpsertFeature(d, moduleId, f))
  {
    var t := UpsertFeature(d, moduleId, f);
    assert t.modules == d.modules && t.actions == d.actions && t.nextId >= d.nextId;
    assert forall k :: k in t.features && k != f.key ==> k in d.features && t.features[k] == d.features[k];
    assert t.features[f.key].id == if f.key in d.features then d.features[f.key].id else d.nextId;
    assert f.key !in d.features ==> t.nextId == d.nextId + 1;
    hide UpsertFeature;
  }

  lemma UpsertModuleConsistent(d: Catalog, app: AppType, m: ModuleSpec)
    requires Consistent(d)
    ensures Consistent(UpsertModule(d, app, m))
  {
    UpsertModuleIds(d, app, m);
    UpsertModuleUnique(d, app, m);
    hide HasModuleId, HasFeatureId, IdsUnique;
  }

  lemma UpsertFeatureIds(d: Catalog, moduleId: Id, f: FeatureSpec)
    ensures var t := UpsertFeature(d, moduleId, f); KeepsModuleIds(d, t) && KeepsFeatureIds(d, t)
  {
    var t := UpsertFeature(d, moduleId, f);
    forall id | HasFeatureId(d, id) ensures HasFeatureId(t, id) {
      var k :| k in d.features && d.features[k].id == id;
      assert t.features[k].id == id;
    }
  }

  lemma UpsertFeatureParents(d: Catalog, moduleId: Id, f: FeatureSpec, t: Catalog, k: string)
    requires LinksResolve(d) && HasModuleId(d, moduleId) && t == UpsertFeature(d, moduleId, f) && KeepsModuleIds(d, t)
    requires k in t.features
    ensures HasModuleId(t, t.features[k].moduleId)
  {
    hide HasModuleId, HasFeatureId;
    assert HasModuleId(d, t.features[k].moduleId);
  }

  lemma UpsertFeatureModuleLinks(d: Catalog, moduleId: Id, f: FeatureSpec)
    requires LinksResolve(d) && HasModuleId(d, moduleId)
    ensures ModuleLinks(UpsertFeature(d, moduleId, f))
  {
    UpsertFeatureIds(d, moduleId, f);
    var t := UpsertFeature(d, moduleId, f);
    assert t.planModules == d.planModules;
    forall k | k in t.features ensures HasModuleId(t, t.features[k].moduleId) {
      UpsertFeatureParents(d, moduleId, f, t, k);
    }
    hide HasModuleId, HasFeatureId, FeatureLinks, UpsertFeature;
  }

  lemma UpsertFeatureConsistent(d: Catalog, moduleId: Id, f: FeatureSpec)
    requires Consistent(d) && HasModuleId(d, moduleId)
    ensures Consistent(UpsertFeature(d, moduleId, f))
  {
    UpsertFeatureIds(d, moduleId, f);
    UpsertFeatureUnique(d, moduleId, f);
    UpsertFeatureModuleLinks(d, moduleId, f);
    hide HasModuleId, HasFeatureId, IdsUnique, ModuleLinks, KeepsModuleIds;
  }

  // ---- One module ----

  lemma UpsertModuleProgress(b: Catalog, d: Catalog, pm: ModuleDict, pf: FeatureDict, app: AppType, m: ModuleSpec)
    requires Progress(b, d, pm, pf) && m.key !in pm
    ensures Progress(b, UpsertModule(d, app, m), pm[m.key := (app, m)], pf)
  {
    UpsertModuleConsistent(d, app, m);
    UpsertModuleModules(b, d, pm, app, m);
    UpsertModuleFeatures(b, d, pm, pf, app, m);
    UpsertModuleActions(b, d, pf, app, m);
    hide ModuleProgress, FeatureProgress, ActionProgress, Consistent;
  }

  lemma UpsertModuleModules(b: Catalog, d: Catalog, pm: ModuleDict, app: AppType, m: ModuleSpec)
    requires ModuleProgress(b, d, pm) && m.key !in pm && d.nextId >= b.nextId
    ensures ModuleProgress(b, UpsertModule(d, app, m), pm[m.key := (app, m)])
  {
    var t := UpsertModule(d, app, m);
    assert ModuleDone(b, t, m.key, app, m);
    forall k | k != m.key ensures (k in t.modules <==> k in d.modules) && (k in d.modules ==> t.modules[k] == d.modules[k]) {}
    hide UpsertModule;
    forall k | k in pm ensures ModuleDone(b, t, k, pm[k].0, pm[k].1) {
      assert ModuleDone(b, d, k, pm[k].0, pm[k].1);
    }
  }

  lemma UpsertModuleFeatures(b: Catalog, d: Catalog, pm: ModuleDict, pf: FeatureDict, app: AppType, m: ModuleSpec)
    requires FeatureProgress(b, d, pm, pf) && m.key !in pm
    ensures FeatureProgress(b, UpsertModule(d, app, m), pm[m.key := (app, m)], pf)
  {
    var t := UpsertModule(d, app, m);
    forall k | k in pf ensures FeatureDone(b, t, k, pf[k].0, pf[k].1) {
      assert FeatureDone(b, d, k, pf[k].0, pf[k].1);
    }
  }

  lemma UpsertModuleActions(b: Catalog, d: Catalog, pf: FeatureDict, app: AppType, m: ModuleSpec)
    requires ActionProgress(b, d, pf)
    ensures ActionProgress(b, UpsertModule(d, app, m), pf)
  {
    var t := UpsertModule(d, app, m);
    assert t.features == d.features && t.actions == d.actions;
    SameActions(b, d, t, pf);
  }

  lemma SameActions(b: Catalog, d: Catalog, t: Catalog, pf: FeatureDict)
    requires ActionProgress(b, d, pf) && t.features == d.features && t.actions == d.actions
    ensures ActionProgress(b, t, pf)
  {
    forall k | k in pf && k in t.features ensures ActionsDone(b, t, t.features[k].id, pf[k].1.actions) {
      assert ActionsDone(b, d, d.features[k].id, pf[k].1.actions);
      forall a ensures ActionDone(b, t, t.features[k].id, pf[k].1.actions, a) {
        assert ActionDone(b, d, d.features[k].id, pf[k].1.actions, a);
      }
    }
    forall id ensures DoneFeatureId(t, pf, id) == DoneFeatureId(d, pf, id) {}
  }

  // ---- One feature ----

  lemma {:induction false} SyncActionsAt(d: Catalog, id: Id, keys: seq<string>, a: (Id, string))
    ensures var t := SyncActions(d, id, keys);
      && t.nextId >= d.nextId
      && (a.0 != id || a.1 !in keys ==> SameAction(d, t, a))
      && (a.0 == id && a.1 in keys ==> SyncedAction(d, t, a))
  {
    if keys != [] {
      hide ActionName;
      var init, last := keys[..|keys| - 1], keys[|keys| - 1];
      SyncActionsAt(d, id, init, a);
      assert keys == init + [last];
      assert SyncActions(d, id, keys) == UpsertAction(SyncActions(d, id, init), id, last);
      hide SyncActions;
    }
  }

  predicate SyncedAction(d: Catalog, t: Catalog, a: (Id, string)) {
    && a in t.actions
    && t.actions[a].name == ActionName(a.1)
    && t.actions[a].id < (if a in d.actions then d.actions[a].id + 1 else t.nextId)
    && t.actions[a].id >= (if a in d.actions then d.actions[a].id else d.nextId)
  }

  lemma SyncActionsEffect(d: Catalog, id: Id, keys: seq<string>)
    ensures var t := SyncActions(d, id, keys);
      && t.nextId >= d.nextId
      && (forall a: (Id, string) :: a.0 != id || a.1 !in keys ==>
            (a in t.actions <==> a in d.actions) && (a in t.actions ==> t.actions[a] == d.actions[a]))
      && (forall k :: k in keys ==>
            && (id, k) in t.actions
            && t.actions[(id, k)].name == ActionName(k)
            && t.actions[(id, k)].id < (if (id, k) in d.actions then d.actions[(id, k)].id + 1 else t.nextId)
            && t.actions[(id, k)].id >= if (id, k) in d.actions then d.actions[(id, k)].id else d.nextId)
  {
    hide SyncActions, ActionName;
    SyncActionsAt(d, id, keys, (id, ""));
    forall a: (Id, string) {
      SyncActionsAt(d, id, keys, a);
    }
  }

  // What synchronising one feature does to the tables.
  lemma SyncFeatureEffect(d: Catalog, moduleId: Id, f: FeatureSpec)
    ensures var t := SyncFeature(d, moduleId, f);
      && t.planModules == d.planModules && t.planFeatures == d.planFeatures
      && t.nextId >= UpsertFeature(d, moduleId, f).nextId >= d.nextId
      && t.features == UpsertFeature(d, moduleId, f).features
      && var id := t.features[f.key].id;
      && ActionsDone(d, t, id, f.actions)
      && (forall a: (Id, string) :: a.0 != id ==> SameAction(d, t, a))
  {
    var d1 := UpsertFeature(d, moduleId, f);
    var id := d1.features[f.key].id;
    var d2 := DropActions(d1, id, f.actions);
    SyncActionsEffect(d2, id, f.actions);
    var t := SyncFeature(d, moduleId, f);
    assert d1.actions == d.actions && d1.nextId >= d.nextId;
    hide UpsertFeature;
    forall a ensures ActionDone(d, t, id, f.actions, a) {}
  }

  lemma SyncFeatureIds(d: Catalog, moduleId: Id, f: FeatureSpec)
    requires IdsUnique(d)
    ensures IdsUnique(SyncFeature(d, moduleId, f))
  {
    UpsertFeatureUnique(d, moduleId, f);
    var d1 := UpsertFeature(d, moduleId, f);
    hide UpsertFeature;
    var id := d1.features[f.key].id;
    SyncActionsEffect(DropActions(d1, id, f.actions), id, f.actions);
  }

  lemma SyncFeatureLinks(d: Catalog, moduleId: Id, f: FeatureSpec)
    requires Consistent(d) && HasModuleId(d, moduleId)
    ensures LinksResolve(SyncFeature(d, moduleId, f))
  {
    UpsertFeatureConsistent(d, moduleId, f);
    SyncFeatureEffect(d, moduleId, f);
    var d1 := UpsertFeature(d, moduleId, f);
    var t := SyncFeature(d, moduleId, f);
    assert d1.actions == d.actions && d1.planModules == d.planModules && d1.planFeatures == d.planFeatures;
    assert t.modules == d1.modules && t.features == d1.features;
    hide SyncFeature, UpsertFeature, IdsUnique, ActionsDone;
    LinksCarried(d1, t, t.features[f.key].id, f.key);
  }

  lemma LinksCarried(d: Catalog, t: Catalog, id: Id, k: string)
    requires LinksResolve(d) && t.modules == d.modules && t.features == d.features
    requires t.planModules == d.planModules && t.planFeatures == d.planFeatures
    requires k in t.features && t.features[k].id == id
    requires forall a: (Id, string) :: a.0 != id && a in t.actions ==> a in d.actions
    ensures LinksResolve(t)
  {
    assert HasFeatureId(t, id);
    forall x ensures HasFeatureId(t, x) == HasFeatureId(d, x) && HasModuleId(t, x) == HasModuleId(d, x) {}
    hide HasModuleId, HasFeatureId;
  }

  lemma SyncFeatureConsistent(d: Catalog, moduleId: Id, f: FeatureSpec)
    requires Consistent(d) && HasModuleId(d, moduleId)
    ensures Consistent(SyncFeature(d, moduleId, f))
  {
    SyncFeatureIds(d, moduleId, f);
    SyncFeatureLinks(d, moduleId, f);
    hide IdsUnique, LinksResolve;
  }

  lemma SyncFeatureProgress(b: Catalog, d: Catalog, pm: ModuleDict, pf: FeatureDict, mk: string, f: FeatureSpec)
    requires Progress(b, d, pm, pf) && f.key !in pf && mk in pm && mk in d.modules
    ensures Progress(b, SyncFeature(d, d.modules[mk].id, f), pm, pf[f.key := (mk, f)])
  {
    var moduleId := d.modules[mk].id;
    var t := SyncFeature(d, moduleId, f);
    assert HasModuleId(d, moduleId);
    hide IdsUnique, LinksResolve, ActionsDone, ModuleProgress, FeatureProgress, ActionProgress, SyncFeature;
    SyncFeatureConsistent(d, moduleId, f);
    SyncFeatureEffect(d, moduleId, f);
    SameModules(b, d, t, pm);
    SyncFeatureFeatures(b, d, t, pm, pf, mk, f);
    SyncFeatureActions(b, d, t, pm, pf, mk, f);
  }

  lemma SameModules(b: Catalog, d: Catalog, t: Catalog, pm: ModuleDict)
    requires ModuleProgress(b, d, pm) && t.modules == d.modules
    ensures ModuleProgress(b, t, pm)
  {
  }

  lemma SyncFeatureFeatures(b: Catalog, d: Catalog, t: Catalog, pm: ModuleDict, pf: FeatureDict, mk: string, f: FeatureSpec)
    requires FeatureProgress(b, d, pm, pf) && f.key !in pf && mk in pm && mk in d.modules
    requires t.modules == d.modules && t.features == UpsertFeature(d, d.modules[mk].id, f).features && d.nextId >= b.nextId
    ensures FeatureProgress(b, t, pm, pf[f.key := (mk, f)])
  {
    assert FeatureDone(b, t, f.key, mk, f);
    forall k | k != f.key ensures (k in t.features <==> k in d.features) && (k in d.features ==> t.features[k] == d.features[k]) {}
    hide UpsertFeature;
    forall k | k in pf ensures FeatureDone(b, t, k, pf[k].0, pf[k].1) {
      assert FeatureDone(b, d, k, pf[k].0, pf[k].1);
    }
  }

  // The id of the feature being synchronised is not the id of one done before.
  lemma NewFeatureId(d: Catalog, t: Catalog, pf: FeatureDict, moduleId: Id, f: FeatureSpec, id: Id)
    requires IdsUnique(d) && f.key !in pf && t.features == UpsertFeature(d, moduleId, f).features
    ensures !DoneFeatureId(d, pf, t.features[f.key].id)
    ensures DoneFeatureId(t, pf[f.key := ("", f)], id) <==> DoneFeatureId(d, pf, id) || id == t.features[f.key].id
  {
    if DoneFeatureId(d, pf, id) {
      var k :| k in pf && k in d.features && d.features[k].id == id;
      assert k in t.features && t.features[k].id == id;
    }
    assert t.features[f.key].id == t.features[f.key].id;
  }

  lemma SyncFeatureActions(b: Catalog, d: Catalog, t: Catalog, pm: ModuleDict, pf: FeatureDict, mk: string, f: FeatureSpec)
    requires Progress(b, d, pm, pf) && f.key !in pf && mk in d.modules
    requires t.features == UpsertFeature(d, d.modules[mk].id, f).features
    requires ActionsDone(d, t, t.features[f.key].id, f.actions)
    requires forall a: (Id, string) :: a.0 != t.features[f.key].id ==> SameAction(d, t, a)
    ensures ActionProgress(b, t, pf[f.key := (mk, f)])
  {
    var qf := pf[f.key := (mk, f)];
    var id := t.features[f.key].id;
    hide ModuleProgress, FeatureProgress, LinksResolve, ActionsDone, SameAction, IdsUnique;
    forall k | k in qf && k in t.features ensures ActionsDone(b, t, t.features[k].id, qf[k].1.actions) {
      NewFeatureId(d, t, pf, d.modules[mk].id, f, id);
      if k == f.key {
        OneFeatureActions(b, d, t, pf, id, f.actions);
      } else {
        OldFeatureId(d, t, pf, d.modules[mk].id, f, k);
        OtherFeatureActions(b, d, t, id, t.features[k].id, pf[k].1.actions);
      }
    }
    forall a: (Id, string) | !DoneFeatureId(t, qf, a.0) ensures SameAction(b, t, a) {
      NewFeatureId(d, t, pf, d.modules[mk].id, f, a.0);
      SameDoneIds(t, pf, f, mk, a.0);
      assert SameAction(b, d, a) && SameAction(d, t, a);
      SameActionTrans(b, d, t, a);
    }
  }

  lemma SameActionTrans(b: Catalog, d: Catalog, t: Catalog, a: (Id, string))
    requires SameAction(b, d, a) && SameAction(d, t, a)
    ensures SameAction(b, t, a)
  {
  }

  lemma SameDoneIds(t: Catalog, pf: FeatureDict, f: FeatureSpec, mk: string, id: Id)
    ensures DoneFeatureId(t, pf[f.key := (mk, f)], id) == DoneFeatureId(t, pf[f.key := ("", f)], id)
  {
  }

  lemma OldFeatureId(d: Catalog, t: Catalog, pf: FeatureDict, moduleId: Id, f: FeatureSpec, k: string)
    requires IdsUnique(d) && f.key !in pf && t.features == UpsertFeature(d, moduleId, f).features
    requires k in pf && k in t.features
    ensures k in d.features && d.features[k].id == t.features[k].id != t.features[f.key].id
  {
  }

  lemma OneFeatureActions(b: Catalog, d: Catalog, t: Catalog, pf: FeatureDict, id: Id, actions: seq<string>)
    requires ActionProgress(b, d, pf) && !DoneFeatureId(d, pf, id) && ActionsDone(d, t, id, actions) && d.nextId >= b.nextId
    ensures ActionsDone(b, t, id, actions)
  {
    forall a ensures ActionDone(b, t, id, actions, a) {
      assert ActionDone(d, t, id, actions, a);
      assert SameAction(b, d, (id, a));
    }
  }

  lemma OtherFeatureActions(b: Catalog, d: Catalog, t: Catalog, id: Id, other: Id, actions: seq<string>)
    requires ActionsDone(b, d, other, actions) && other != id
    requires forall a: (Id, string) :: a.0 != id ==> SameAction(d, t, a)
    ensures ActionsDone(b, t, other, actions)
  {
    forall a ensures ActionDone(b, t, other, actions, a) {
      assert ActionDone(b, d, other, actions, a);
      assert SameAction(d, t, (other, a));
    }
  }

  // ---- The loops ----

  lemma DistinctParts(a: seq<string>, c: seq<string>)
    requires Distinct(a + c)
    ensures Distinct(a) && Distinct(c) && forall k :: k in a ==> k !in c
  {
    var all := a + c;
    forall i, j | 0 <= i < j < |a| ensures a[i] != a[j] { assert all[i] != all[j]; }
    forall i, j | 0 <= i < j < |c| ensures c[i] != c[j] { assert all[|a| + i] != all[|a| + j]; }
    forall i, j | 0 <= i < |a| && 0 <= j < |c| ensures a[i] != c[j] { assert all[i] != all[|a| + j]; }
  }

  lemma {:induction false} FeatureDictKeys(m: string, fs: seq<FeatureSpec>)
    ensures forall k :: k in FeatureDictOf(m, fs) <==> k in FeatureKeysOf(fs)
  {
    if fs != [] { FeatureDictKeys(m, fs[..|fs| - 1]); }
  }

  lemma {:induction false} ModuleDictKeys(app: AppType, ms: seq<ModuleSpec>)
    ensures forall k :: k in ModuleDictIn(app, ms) <==> k in ModuleKeysIn(ms)
    ensures forall k :: k in FeatureDictIn(ms) <==> k in FeatureKeysIn(ms)
  {
    if ms != [] {
      ModuleDictKeys(app, ms[..|ms| - 1]);
      FeatureDictKeys(ms[|ms| - 1].key, ms[|ms| - 1].features);
    }
  }

  lemma {:induction false} SeedDictKeys(seed: seq<AppSpec>)
    ensures forall k :: k in SeedModules(seed) <==> k in ModuleKeys(seed)
    ensures forall k :: k in SeedFeatures(seed) <==> k in FeatureKeys(seed)
  {
    if seed != [] {
      SeedDictKeys(seed[..|seed| - 1]);
      ModuleDictKeys(seed[|seed| - 1].appType, seed[|seed| - 1].modules);
    }
  }

  lemma {:induction false} SyncFeaturesProgress(b: Catalog, d: Catalog, pm: ModuleDict, pf: FeatureDict, mk: string, fs: seq<FeatureSpec>)
    requires Progress(b, d, pm, pf) && mk in pm && mk in d.modules
    requires Distinct(FeatureKeysOf(fs)) && forall k :: k in FeatureKeysOf(fs) ==> k !in pf
    ensures Progress(b, SyncFeatures(d, d.modules[mk].id, fs), pm, pf + FeatureDictOf(mk, fs))
  {
    hide Progress, SyncFeature;
    if fs == [] {
      assert pf + FeatureDictOf(mk, fs) == pf;
    } else {
      var init, last := fs[..|fs| - 1], fs[|fs| - 1];
      DistinctParts(FeatureKeysOf(init), [last.key]);
      FeatureDictKeys(mk, init);
      SyncFeaturesProgress(b, d, pm, pf, mk, init);
      var d1 := SyncFeatures(d, d.modules[mk].id, init);
      var pf1 := pf + FeatureDictOf(mk, init);
      assert last.key in [last.key];
      SyncFeatureProgress(b, d1, pm, pf1, mk, last);
      assert pf1[last.key := (mk, last)] == pf + FeatureDictOf(mk, fs);
    }
  }

  lemma SyncModuleProgress(b: Catalog, d: Catalog, pm: ModuleDict, pf: FeatureDict, app: AppType, m: ModuleSpec)
    requires Progress(b, d, pm, pf) && m.key !in pm
    requires Distinct(FeatureKeysOf(m.features)) && forall k :: k in FeatureKeysOf(m.features) ==> k !in pf
    ensures Progress(b, SyncModule(d, app, m), pm[m.key := (app, m)], pf + FeatureDictOf(m.key, m.features))
  {
    hide Progress, UpsertModule, SyncFeatures;
    UpsertModuleProgress(b, d, pm, pf, app, m);
    SyncFeaturesProgress(b, UpsertModule(d, app, m), pm[m.key := (app, m)], pf, m.key, m.features);
  }

  // The keys of a list of modules, split at the last one.
  lemma LastModule(pm: ModuleDict, pf: FeatureDict, app: AppType, ms: seq<ModuleSpec>)
    requires ms != []
    requires Distinct(ModuleKeysIn(ms)) && forall k :: k in ModuleKeysIn(ms) ==> k !in pm
    requires Distinct(FeatureKeysIn(ms)) && forall k :: k in FeatureKeysIn(ms) ==> k !in pf
    ensures var init, last := ms[..|ms| - 1], ms[|ms| - 1];
      var pm1, pf1 := pm + ModuleDictIn(app, init), pf + FeatureDictIn(init);
      && Distinct(ModuleKeysIn(init)) && (forall k :: k in ModuleKeysIn(init) ==> k !in pm)
      && Distinct(FeatureKeysIn(init)) && (forall k :: k in FeatureKeysIn(init) ==> k !in pf)
      && last.key !in pm1
      && Distinct(FeatureKeysOf(last.features)) && (forall k :: k in FeatureKeysOf(last.features) ==> k !in pf1)
  {
    var init, last := ms[..|ms| - 1], ms[|ms| - 1];
    DistinctParts(ModuleKeysIn(init), [last.key]);
    DistinctParts(FeatureKeysIn(init), FeatureKeysOf(last.features));
    ModuleDictKeys(app, init);
    assert last.key in [last.key];
    hide Distinct;
  }

  lemma LastDict(pm: ModuleDict, pf: FeatureDict, app: AppType, ms: seq<ModuleSpec>)
    requires ms != []
    ensures var init, last := ms[..|ms| - 1], ms[|ms| - 1];
      && (pm + ModuleDictIn(app, init))[last.key := (app, last)] == pm + ModuleDictIn(app, ms)
      && pf + FeatureDictIn(init) + FeatureDictOf(last.key, last.features) == pf + FeatureDictIn(ms)
  {
  }

  lemma {:induction false} SyncModulesProgress(b: Catalog, d: Catalog, pm: ModuleDict, pf: FeatureDict, app: AppType, ms: seq<ModuleSpec>)
    requires Progress(b, d, pm, pf)
    requires Distinct(ModuleKeysIn(ms)) && forall k :: k in ModuleKeysIn(ms) ==> k !in pm
    requires Distinct(FeatureKeysIn(ms)) && forall k :: k in FeatureKeysIn(ms) ==> k !in pf
    ensures Progress(b, SyncModules(d, app, ms), pm + ModuleDictIn(app, ms), pf + FeatureDictIn(ms))
  {
    hide Progress, SyncModule, Distinct, ModuleKeysIn, FeatureKeysIn, FeatureKeysOf, FeatureDictOf;
    if ms == [] {
      assert pm + ModuleDictIn(app, ms) == pm && pf + FeatureDictIn(ms) == pf;
    } else {
      hide ModuleDictIn, FeatureDictIn;
      var init, last := ms[..|ms| - 1], ms[|ms| - 1];
      LastModule(pm, pf, app, ms);
      SyncModulesProgress(b, d, pm, pf, app, init);
      var pm1, pf1 := pm + ModuleDictIn(app, init), pf + FeatureDictIn(init);
      SyncModuleProgress(b, SyncModules(d, app, init), pm1, pf1, app, last);
      LastDict(pm, pf, app, ms);
    }
  }

  lemma {:induction false} SyncAppsProgress(b: Catalog, seed: seq<AppSpec>)
    requires Consistent(b) && Distinct(ModuleKeys(seed)) && Distinct(FeatureKeys(seed))
    ensures Progress(b, SyncApps(b, seed), SeedModules(seed), SeedFeatures(seed))
  {
    if seed != [] {
      var init, last := seed[..|seed| - 1], seed[|seed| - 1];
      DistinctParts(ModuleKeys(init), ModuleKeysIn(last.modules));
      DistinctParts(FeatureKeys(init), FeatureKeysIn(last.modules));
      SeedDictKeys(init);
      SyncAppsProgress(b, init);
      hide Progress, Consistent;
      SyncModulesProgress(b, SyncApps(b, init), SeedModules(init), SeedFeatures(init), last.appType, last.modules);
    }
  }

  // ---- The deletions ----

  // Of the actions and plan links of `d`, exactly those whose feature is left are left.
  ghost predicate FollowsFeatures(d: Catalog, t: Catalog) {
    && (forall a :: a in t.actions <==> a in d.actions && HasFeatureId(t, a.0))
    && (forall a :: a in t.actions ==> t.actions[a] == d.actions[a])
    && (forall l :: l in t.planFeatures <==> l in d.planFeatures && HasFeatureId(t, l.1))
  }

  lemma FollowsTwice(d: Catalog, d1: Catalog, t: Catalog)
    requires FollowsFeatures(d, d1) && FollowsFeatures(d1, t)
    requires forall id :: HasFeatureId(t, id) ==> HasFeatureId(d1, id)
    ensures FollowsFeatures(d, t)
  {
    hide HasFeatureId;
  }

  lemma DropFeaturesEffect(d: Catalog, gone: set<string>)
    requires IdsUnique(d) && FeatureLinks(d)
    ensures var t := DropFeatures(d, gone);
      && t.modules == d.modules && t.planModules == d.planModules && t.nextId == d.nextId
      && (forall k :: k in t.features <==> k in d.features && k !in gone)
      && (forall k :: k in t.features ==> t.features[k] == d.features[k])
      && FollowsFeatures(d, t)
  {
    var t := DropFeatures(d, gone);
    var ids := set k | k in gone && k in d.features :: d.features[k].id;
    forall id | HasFeatureId(d, id) ensures HasFeatureId(t, id) <==> id !in ids {
      var k :| k in d.features && d.features[k].id == id;
      if k !in gone {
        assert t.features[k].id == id;
      }
    }
  }

  lemma ModuleIdsAfterDrop(d: Catalog, t: Catalog, gone: set<string>, ids: set<Id>, id: Id)
    requires IdsUnique(d) && t.modules == d.modules - gone
    requires ids == set k | k in gone && k in d.modules :: d.modules[k].id
    ensures HasModuleId(d, id) ==> (HasModuleId(t, id) <==> id !in ids)
  {
    if HasModuleId(d, id) {
      var k :| k in d.modules && d.modules[k].id == id;
      if k !in gone {
        assert t.modules[k].id == id;
      }
    }
  }

  lemma DropModulesEffect(d: Catalog, gone: set<string>)
    requires Consistent(d)
    ensures var t := DropModules(d, gone);
      && t.nextId == d.nextId
      && (forall k :: k in t.modules <==> k in d.modules && k !in gone)
      && (forall k :: k in t.modules ==> t.modules[k] == d.modules[k])
      && (forall k :: k in t.features <==> k in d.features && HasModuleId(t, d.features[k].moduleId))
      && (forall k :: k in t.features ==> t.features[k] == d.features[k])
      && FollowsFeatures(d, t)
      && (forall l :: l in t.planModules <==> l in d.planModules && HasModuleId(t, l.1))
  {
    var ids := set k | k in gone && k in d.modules :: d.modules[k].id;
    var orphans := set k | k in d.features && d.features[k].moduleId in ids;
    var d1 := d.(modules := d.modules - gone, planModules := set l | l in d.planModules && l.1 !in ids);
    assert IdsUnique(d1);
    SameFeatureLinks(d, d1);
    DropFeaturesEffect(d1, orphans);
    var t := DropFeatures(d1, orphans);
    hide DropFeatures;
    forall id ensures HasModuleId(d, id) ==> (HasModuleId(t, id) <==> id !in ids) {
      ModuleIdsAfterDrop(d, t, gone, ids, id);
    }
    SameFollows(d, d1, t);
    hide IdsUnique, HasModuleId, HasFeatureId, FeatureLinks, FollowsFeatures;
  }

  lemma SameFeatureLinks(d: Catalog, t: Catalog)
    requires FeatureLinks(d) && t.features == d.features && t.actions == d.actions && t.planFeatures == d.planFeatures
    ensures FeatureLinks(t)
  {
    forall id ensures HasFeatureId(t, id) == HasFeatureId(d, id) {}
  }

  lemma SameFollows(d: Catalog, d1: Catalog, t: Catalog)
    requires d1.actions == d.actions && d1.planFeatures == d.planFeatures && FollowsFeatures(d1, t)
    ensures FollowsFeatures(d, t)
  {
  }

  lemma DropModulesConsistent(d: Catalog, gone: set<string>)
    requires Consistent(d)
    ensures Consistent(DropModules(d, gone))
  {
    DropModulesEffect(d, gone);
    hide DropModules;
  }

  lemma DropFeaturesConsistent(d: Catalog, gone: set<string>)
    requires Consistent(d)
    ensures Consistent(DropFeatures(d, gone))
  {
    DropFeaturesEffect(d, gone);
    var t := DropFeatures(d, gone);
    hide DropFeatures;
    forall id ensures HasModuleId(t, id) == HasModuleId(d, id) {}
  }

  // What is left of `d` after both deletions: the listed modules, the listed features
  // whose module is left, and the actions and plan links that go with them.
  ghost predicate PrunedTo(d: Catalog, b: Catalog, moduleKeys: seq<string>, featureKeys: seq<string>) {
    && Consistent(b) && b.nextId == d.nextId
    && (forall k :: k in b.modules <==> k in d.modules && k in moduleKeys)
    && (forall k :: k in b.modules ==> b.modules[k] == d.modules[k])
    && (forall k :: k in b.features <==> k in d.features && k in featureKeys && HasModuleId(b, d.features[k].moduleId))
    && (forall k :: k in b.features ==> b.features[k] == d.features[k])
    && FollowsFeatures(d, b)
    && (forall l :: l in b.planModules <==> l in d.planModules && HasModuleId(b, l.1))
  }

  lemma PrunedEffect(d: Catalog, seed: seq<AppSpec>)
    requires Consistent(d)
    ensures PrunedTo(d, Pruned(d, seed), ModuleKeys(seed), FeatureKeys(seed))
  {
    var gone := NotIn(d.modules, ModuleKeys(seed));
    var d1 := DropModules(d, gone);
    DropModulesEffect(d, gone);
    DropModulesConsistent(d, gone);
    hide DropModules, IdsUnique, ModuleLinks;
    var gone1 := NotIn(d1.features, FeatureKeys(seed));
    DropFeaturesEffect(d1, gone1);
    DropFeaturesConsistent(d1, gone1);
    hide DropFeatures, FeatureLinks;
    PrunedTwice(d, d1, DropFeatures(d1, gone1), gone, gone1, ModuleKeys(seed), FeatureKeys(seed));
  }

  lemma PrunedTwice(d: Catalog, d1: Catalog, b: Catalog, gone: set<string>, gone1: set<string>, mks: seq<string>, fks: seq<string>)
    requires Consistent(b) && b.nextId == d1.nextId == d.nextId
    requires gone == NotIn(d.modules, mks) && gone1 == NotIn(d1.features, fks)
    requires forall k :: k in d1.modules <==> k in d.modules && k !in gone
    requires forall k :: k in d1.modules ==> d1.modules[k] == d.modules[k]
    requires forall k :: k in d1.features <==> k in d.features && HasModuleId(d1, d.features[k].moduleId)
    requires forall k :: k in d1.features ==> d1.features[k] == d.features[k]
    requires forall l :: l in d1.planModules <==> l in d.planModules && HasModuleId(d1, l.1)
    requires b.modules == d1.modules && b.planModules == d1.planModules
    requires forall k :: k in b.features <==> k in d1.features && k !in gone1
    requires forall k :: k in b.features ==> b.features[k] == d1.features[k]
    requires FollowsFeatures(d, d1) && FollowsFeatures(d1, b)
    ensures PrunedTo(d, b, mks, fks)
  {
    hide IdsUnique, LinksResolve, FollowsFeatures;
    forall id ensures HasModuleId(b, id) == HasModuleId(d1, id) {}
    forall id ensures HasFeatureId(b, id) ==> HasFeatureId(d1, id) {}
    FollowsTwice(d, d1, b);
    hide HasModuleId, HasFeatureId;
  }

  // ---- What a run leaves behind ----

  // The module with this id is in the seed.
  ghost predicate ModuleIdSurvives(before: Catalog, M: ModuleDict, id: Id) {
    exists k :: k in M && k in before.modules && before.modules[k].id == id
  }

  // The feature and the module it was in before are both in the seed.
  ghost predicate Survives(before: Catalog, M: ModuleDict, F: FeatureDict, k: string) {
    k in before.features && k in F && ModuleIdSurvives(before, M, before.features[k].moduleId)
  }

  ghost predicate FeatureIdSurvives(before: Catalog, M: ModuleDict, F: FeatureDict, id: Id) {
    exists k :: Survives(before, M, F, k) && before.features[k].id == id
  }

  ghost predicate FeatureSynced(before: Catalog, M: ModuleDict, F: FeatureDict, d: Catalog, k: string)
    requires k in F
  {
    && var (mk, f) := F[k];
    && k in d.features && mk in d.modules
    && var row := d.features[k];
    && row.name == f.name && row.moduleId == d.modules[mk].id && row.path == Some(f.path) && row.targets == f.targets
    && if Survives(before, M, F, k) then row.id == before.features[k].id && row.description == before.features[k].description
       else row.id >= before.nextId && row.description == None
  }

  ghost predicate Listed(F: FeatureDict, d: Catalog, a: (Id, string)) {
    exists k :: k in F && k in d.features && d.features[k].id == a.0 && a.1 in F[k].1.actions
  }

  ghost predicate ActionsSynced(before: Catalog, F: FeatureDict, d: Catalog) {
    && (forall a: (Id, string) :: a in d.actions <==> Listed(F, d, a))
    && (forall a :: a in d.actions ==>
          && d.actions[a].name == ActionName(a.1)
          && if a in before.actions then d.actions[a].id == before.actions[a].id else d.actions[a].id >= before.nextId)
  }

  ghost predicate LinksSynced(before: Catalog, M: ModuleDict, F: FeatureDict, d: Catalog) {
    && (forall l :: l in d.planModules <==> l in before.planModules && ModuleIdSurvives(before, M, l.1))
    && (forall l :: l in d.planFeatures <==> l in before.planFeatures && FeatureIdSurvives(before, M, F, l.1))
  }

  // From `before`, the catalogue `d` holds exactly the seed: these rows, under these parents,
  // with ids kept where the old row survives and new otherwise; and no link dangles.
  ghost predicate Synced(before: Catalog, M: ModuleDict, F: FeatureDict, d: Catalog) {
    && Consistent(d)
    && d.modules.Keys == M.Keys && (forall k :: k in M ==> ModuleDone(before, d, k, M[k].0, M[k].1))
    && d.features.Keys == F.Keys && (forall k :: k in F ==> FeatureSynced(before, M, F, d, k))
    && ActionsSynced(before, F, d)
    && LinksSynced(before, M, F, d)
  }

  lemma PrunedIds(before: Catalog, b: Catalog, M: ModuleDict, F: FeatureDict)
    requires forall k :: k in b.modules <==> k in before.modules && k in M
    requires forall k :: k in b.modules ==> b.modules[k] == before.modules[k]
    requires forall k :: k in b.features <==> k in before.features && k in F && HasModuleId(b, before.features[k].moduleId)
    requires forall k :: k in b.features ==> b.features[k] == before.features[k]
    ensures forall id :: HasModuleId(b, id) <==> ModuleIdSurvives(before, M, id)
    ensures forall k :: k in b.features <==> Survives(before, M, F, k)
    ensures forall id :: HasFeatureId(b, id) <==> FeatureIdSurvives(before, M, F, id)
  {
    forall id ensures HasModuleId(b, id) <==> ModuleIdSurvives(before, M, id) {
      if HasModuleId(b, id) {
        var k :| k in b.modules && b.modules[k].id == id;
        assert k in M && before.modules[k].id == id;
      }
      if ModuleIdSurvives(before, M, id) {
        var k :| k in M && k in before.modules && before.modules[k].id == id;
        assert k in b.modules && b.modules[k].id == id;
      }
    }
    hide HasModuleId, ModuleIdSurvives;
    forall id ensures HasFeatureId(b, id) <==> FeatureIdSurvives(before, M, F, id) {
      if HasFeatureId(b, id) {
        var k :| k in b.features && b.features[k].id == id;
        assert Survives(before, M, F, k) && before.features[k].id == id;
      }
      if FeatureIdSurvives(before, M, F, id) {
        var k :| Survives(before, M, F, k) && before.features[k].id == id;
        assert k in b.features && b.features[k].id == id;
      }
    }
  }

  lemma ActionsFromProgress(before: Catalog, b: Catalog, d: Catalog, F: FeatureDict)
    requires Consistent(before) && Consistent(d) && d.features.Keys == F.Keys && b.nextId == before.nextId
    requires ActionProgress(b, d, F)
    requires FollowsFeatures(before, b)
    requires forall k :: k in d.features ==>
               if k in b.features then d.features[k].id == b.features[k].id else d.features[k].id >= before.nextId
    ensures ActionsSynced(before, F, d)
  {
    forall a: (Id, string)
      ensures a in d.actions <==> Listed(F, d, a)
      ensures a in d.actions ==>
        && d.actions[a].name == ActionName(a.1)
        && if a in before.actions then d.actions[a].id == before.actions[a].id else d.actions[a].id >= before.nextId
    {
      OneActionFromProgress(before, b, d, F, a);
    }
  }

  lemma OneActionFromProgress(before: Catalog, b: Catalog, d: Catalog, F: FeatureDict, a: (Id, string))
    requires Consistent(before) && FeatureLinks(d) && d.features.Keys == F.Keys && b.nextId == before.nextId
    requires ActionProgress(b, d, F)
    requires FollowsFeatures(before, b)
    requires forall k :: k in d.features ==>
               if k in b.features then d.features[k].id == b.features[k].id else d.features[k].id >= before.nextId
    ensures a in d.actions <==> Listed(F, d, a)
    ensures a in d.actions ==>
      && d.actions[a].name == ActionName(a.1)
      && if a in before.actions then d.actions[a].id == before.actions[a].id else d.actions[a].id >= before.nextId
  {
    hide ActionName, ModuleLinks;
    if Listed(F, d, a) {
      var k :| k in F && k in d.features && d.features[k].id == a.0 && a.1 in F[k].1.actions;
      assert ActionDone(b, d, d.features[k].id, F[k].1.actions, a.1);
    }
    if a in d.actions {
      assert HasFeatureId(d, a.0);
      var k :| k in d.features && d.features[k].id == a.0;
      assert ActionDone(b, d, d.features[k].id, F[k].1.actions, a.1);
      if a in before.actions {
        assert HasFeatureId(before, a.0);
        assert k in b.features && b.features[k].id == a.0;
        assert HasFeatureId(b, a.0);
      }
    }
  }

  // From any consistent catalogue and any seed with distinct keys, a run leaves exactly
  // the seed, with the ids and links described by `Synced`.
  lemma SeedConvergence(before: Catalog, seed: seq<AppSpec>)
    requires Consistent(before) && Distinct(ModuleKeys(seed)) && Distinct(FeatureKeys(seed))
    ensures Synced(before, SeedModules(seed), SeedFeatures(seed), SyncAll(before, seed))
  {
    var M, F := SeedModules(seed), SeedFeatures(seed);
    var b := Pruned(before, seed);
    var d := SyncApps(b, seed);
    SeedDictKeys(seed);
    PrunedEffect(before, seed);
    SyncAppsProgress(b, seed);
    hide Pruned, SyncApps, SeedModules, SeedFeatures, ModuleKeys, FeatureKeys, Distinct, Progress, PrunedTo, Consistent;
    ConvergenceFromProgress(before, b, d, M, F, ModuleKeys(seed), FeatureKeys(seed));
  }

  lemma ConvergenceFromProgress(before: Catalog, b: Catalog, d: Catalog, M: ModuleDict, F: FeatureDict, mks: seq<string>, fks: seq<string>)
    requires Consistent(before) && Progress(b, d, M, F) && PrunedTo(before, b, mks, fks)
    requires forall k :: k in M <==> k in mks
    requires forall k :: k in F <==> k in fks
    ensures Synced(before, M, F, d)
  {
    hide Consistent;
    PrunedIds(before, b, M, F);
    hide HasModuleId, HasFeatureId, Survives, ModuleIdSurvives, FeatureIdSurvives, ActionProgress, FollowsFeatures;
    ModulesFromProgress(before, b, d, M);
    FeaturesFromProgress(before, b, d, M, F);
    LinksFromProgress(before, b, d, M, F);
    hide ModuleProgress, FeatureProgress, LinksSynced, ModuleDone, FeatureSynced, PrunedTo;
    ActionsFromProgress(before, b, d, F);
  }

  lemma ModulesFromProgress(before: Catalog, b: Catalog, d: Catalog, M: ModuleDict)
    requires ModuleProgress(b, d, M) && b.nextId == before.nextId
    requires forall k :: k in b.modules <==> k in before.modules && k in M
    requires forall k :: k in b.modules ==> b.modules[k] == before.modules[k]
    ensures d.modules.Keys == M.Keys && (forall k :: k in M ==> ModuleDone(before, d, k, M[k].0, M[k].1))
  {
    forall k | k in M ensures ModuleDone(before, d, k, M[k].0, M[k].1) {
      assert ModuleDone(b, d, k, M[k].0, M[k].1);
    }
  }

  lemma FeaturesFromProgress(before: Catalog, b: Catalog, d: Catalog, M: ModuleDict, F: FeatureDict)
    requires FeatureProgress(b, d, M, F) && b.nextId == before.nextId
    requires forall k :: k in b.features <==> Survives(before, M, F, k)
    requires forall k :: k in b.features ==> k in before.features && k in F && b.features[k] == before.features[k]
    ensures d.features.Keys == F.Keys && (forall k :: k in F ==> FeatureSynced(before, M, F, d, k))
    ensures forall k :: k in d.features ==>
              if k in b.features then d.features[k].id == b.features[k].id else d.features[k].id >= before.nextId
  {
    hide Survives;
    forall k | k in F ensures FeatureDone(b, d, k, F[k].0, F[k].1) && FeatureSynced(before, M, F, d, k) {
      assert FeatureDone(b, d, k, F[k].0, F[k].1);
    }
  }

  lemma LinksFromProgress(before: Catalog, b: Catalog, d: Catalog, M: ModuleDict, F: FeatureDict)
    requires d.planModules == b.planModules && d.planFeatures == b.planFeatures && FollowsFeatures(before, b)
    requires forall l :: l in b.planModules <==> l in before.planModules && HasModuleId(b, l.1)
    requires forall id :: HasModuleId(b, id) <==> ModuleIdSurvives(before, M, id)
    requires forall id :: HasFeatureId(b, id) <==> FeatureIdSurvives(before, M, F, id)
    ensures LinksSynced(before, M, F, d)
  {
    hide HasModuleId, HasFeatureId, ModuleIdSurvives, FeatureIdSurvives;
  }

  // ---- Identity ----

  // A module in the seed keeps its id; a feature keeps its id exactly when its key and
  // its old module's key are in the seed; an action keeps its id exactly when its feature
  // survives and lists it.
  lemma SeedIdentity(before: Catalog, M: ModuleDict, F: FeatureDict, d: Catalog)
    requires Consistent(before) && Synced(before, M, F, d)
    ensures forall k :: k in before.modules ==>
              (k in d.modules && d.modules[k].id == before.modules[k].id <==> k in M)
    ensures forall k :: k in before.features ==>
              (k in d.features && d.features[k].id == before.features[k].id <==> Survives(before, M, F, k))
    ensures forall a: (Id, string) :: a in before.actions ==>
              (a in d.actions && d.actions[a].id == before.actions[a].id
               <==> exists k :: Survives(before, M, F, k) && before.features[k].id == a.0 && a.1 in F[k].1.actions)
  {
    hide ActionName, LinksSynced, ModuleLinks, ModuleIdSurvives;
    forall k | k in before.features
      ensures k in d.features && d.features[k].id == before.features[k].id <==> Survives(before, M, F, k)
    {
      if k in F { assert FeatureSynced(before, M, F, d, k); }
    }
    forall k | k in before.modules
      ensures k in d.modules && d.modules[k].id == before.modules[k].id <==> k in M
    {
      if k in M { assert ModuleDone(before, d, k, M[k].0, M[k].1); }
    }
    forall a: (Id, string) | a in before.actions
      ensures a in d.actions && d.actions[a].id == before.actions[a].id
              <==> exists k :: Survives(before, M, F, k) && before.features[k].id == a.0 && a.1 in F[k].1.actions
    {
      ActionIdentity(before, M, F, d, a);
    }
  }

  lemma ActionIdentity(before: Catalog, M: ModuleDict, F: FeatureDict, d: Catalog, a: (Id, string))
    requires Consistent(before) && Synced(before, M, F, d) && a in before.actions
    ensures a in d.actions && d.actions[a].id == before.actions[a].id
            <==> exists k :: Survives(before, M, F, k) && before.features[k].id == a.0 && a.1 in F[k].1.actions
  {
    hide ActionName, LinksSynced, ModuleLinks, ModuleIdSurvives, ModuleDone;
    if a in d.actions {
      var k :| k in F && k in d.features && d.features[k].id == a.0 && a.1 in F[k].1.actions;
      assert FeatureSynced(before, M, F, d, k);
      assert HasFeatureId(before, a.0);
      assert Survives(before, M, F, k);
    }
    if k :| Survives(before, M, F, k) && before.features[k].id == a.0 && a.1 in F[k].1.actions {
      assert FeatureSynced(before, M, F, d, k);
      assert Listed(F, d, a);
    }
  }

  // ---- Idempotence ----

  // A run from a catalogue an earlier run left behind changes no table.
  lemma SeedIdempotent(before: Catalog, M: ModuleDict, F: FeatureDict, d: Catalog, e: Catalog)
    requires Synced(before, M, F, d) && Synced(d, M, F, e)
    ensures e.modules == d.modules && e.features == d.features && e.actions == d.actions
    ensures e.planModules == d.planModules && e.planFeatures == d.planFeatures
  {
    ModulesIdempotent(before, M, F, d, e);
    FeaturesIdempotent(before, M, F, d, e);
    ActionsIdempotent(before, M, F, d, e);
    LinksIdempotent(before, M, F, d, e);
  }

  lemma ModulesIdempotent(before: Catalog, M: ModuleDict, F: FeatureDict, d: Catalog, e: Catalog)
    requires Synced(before, M, F, d) && Synced(d, M, F, e)
    ensures e.modules == d.modules
  {
    hide Consistent, FeatureSynced, ActionsSynced, LinksSynced;
    forall k | k in M ensures e.modules[k] == d.modules[k] {
      assert ModuleDone(before, d, k, M[k].0, M[k].1) && ModuleDone(d, e, k, M[k].0, M[k].1);
    }
  }

  lemma AllSurvive(before: Catalog, M: ModuleDict, F: FeatureDict, d: Catalog, k: string)
    requires Synced(before, M, F, d) && k in F
    ensures Survives(d, M, F, k)
  {
    hide Consistent, ActionsSynced, LinksSynced, ModuleDone;
    assert FeatureSynced(before, M, F, d, k);
  }

  lemma FeatureIdempotent(before: Catalog, M: ModuleDict, F: FeatureDict, d: Catalog, e: Catalog, k: string)
    requires Synced(before, M, F, d) && Synced(d, M, F, e) && k in F
    ensures k in e.features && k in d.features && e.features[k] == d.features[k]
  {
    ModulesIdempotent(before, M, F, d, e);
    AllSurvive(before, M, F, d, k);
    assert FeatureSynced(before, M, F, d, k) && FeatureSynced(d, M, F, e, k);
    hide Synced, Survives;
  }

  lemma MapsAgree<K, V>(a: map<K, V>, b: map<K, V>)
    requires forall k :: k in a <==> k in b
    requires forall k :: k in a ==> a[k] == b[k]
    ensures a == b
  {
  }

  lemma FeaturesIdempotent(before: Catalog, M: ModuleDict, F: FeatureDict, d: Catalog, e: Catalog)
    requires Synced(before, M, F, d) && Synced(d, M, F, e)
    ensures e.features == d.features
  {
    assert d.features.Keys == F.Keys && e.features.Keys == F.Keys by {
      hide Consistent, FeatureSynced, ActionsSynced, LinksSynced, ModuleDone;
    }
    hide Synced;
    forall k | k in F ensures k in e.features && k in d.features && e.features[k] == d.features[k] {
      FeatureIdempotent(before, M, F, d, e, k);
    }
    MapsAgree(e.features, d.features);
  }

  lemma ActionIdempotent(before: Catalog, F: FeatureDict, d: Catalog, e: Catalog, a: (Id, string))
    requires ActionsSynced(before, F, d) && ActionsSynced(d, F, e) && e.features == d.features
    ensures a in e.actions <==> a in d.actions
    ensures a in d.actions ==> e.actions[a] == d.actions[a]
  {
    hide ActionName;
    assert Listed(F, d, a) == Listed(F, e, a);
    hide Listed;
  }

  lemma ActionsIdempotent(before: Catalog, M: ModuleDict, F: FeatureDict, d: Catalog, e: Catalog)
    requires Synced(before, M, F, d) && Synced(d, M, F, e)
    ensures e.actions == d.actions
  {
    FeaturesIdempotent(before, M, F, d, e);
    assert ActionsSynced(before, F, d) && ActionsSynced(d, F, e);
    hide Synced, ActionsSynced;
    forall a: (Id, string)
      ensures a in e.actions <==> a in d.actions
      ensures a in d.actions ==> e.actions[a] == d.actions[a]
    {
      ActionIdempotent(before, F, d, e, a);
    }
    MapsAgree(e.actions, d.actions);
  }

  lemma LinksAllSurvive(before: Catalog, M: ModuleDict, F: FeatureDict, d: Catalog)
    requires Synced(before, M, F, d)
    ensures forall l :: l in d.planModules ==> ModuleIdSurvives(d, M, l.1)
    ensures forall l :: l in d.planFeatures ==> FeatureIdSurvives(d, M, F, l.1)
  {
    assert LinksResolve(d) && d.modules.Keys == M.Keys && d.features.Keys == F.Keys;
    hide Synced;
    forall l | l in d.planModules ensures ModuleIdSurvives(d, M, l.1) {
      assert HasModuleId(d, l.1);
    }
    forall l | l in d.planFeatures ensures FeatureIdSurvives(d, M, F, l.1) {
      assert HasFeatureId(d, l.1);
      var k :| k in d.features && d.features[k].id == l.1;
      AllSurvive(before, M, F, d, k);
    }
  }

  lemma LinksIdempotent(before: Catalog, M: ModuleDict, F: FeatureDict, d: Catalog, e: Catalog)
    requires Synced(before, M, F, d) && Synced(d, M, F, e)
    ensures e.planModules == d.planModules && e.planFeatures == d.planFeatures
  {
    assert LinksSynced(d, M, F, e);
    LinksAllSurvive(before, M, F, d);
    hide Synced, ModuleIdSurvives, FeatureIdSurvives;
  }

  // Running the reconciler twice is running it once.
  lemma SecondRunChangesNothing(before: Catalog, seed: seq<AppSpec>)
    requires Consistent(before) && Distinct(ModuleKeys(seed)) && Distinct(FeatureKeys(seed))
    ensures var d := SyncAll(before, seed);
      SyncAll(d, seed) == d.(nextId := SyncAll(d, seed).nextId)
  {
    SeedConvergence(before, seed);
    hide SyncAll;
    var d := SyncAll(before, seed);
    SeedConvergence(d, seed);
    SeedIdempotent(before, SeedModules(seed), SeedFeatures(seed), d, SyncAll(d, seed));
  }
}
