// The catalogue of modules, features and actions, and what the seed reconciler does to
// it. A table is a map keyed by its unique index; the generated id is a column, and
// foreign keys are ids. Ids are drawn from a supply that never repeats.
module SeedModel {

  import opened Options

  type Id = nat

  datatype AppType = AdminWeb | MainWeb
  datatype UserType = ClientUser | Advocate | LawFirmAdmin | Admin | SuperAdmin

  // ---- Seed data ----

  datatype FeatureSpec = FeatureSpec(key: string, name: string, path: string, actions: seq<string>, targets: seq<UserType>)
  datatype ModuleSpec = ModuleSpec(key: string, name: string, path: string, targets: seq<UserType>, features: seq<FeatureSpec>)
  datatype AppSpec = AppSpec(appType: AppType, modules: seq<ModuleSpec>)

  function FeatureKeysOf(fs: seq<FeatureSpec>): seq<string> {
    if fs == [] then [] else FeatureKeysOf(fs[..|fs| - 1]) + [fs[|fs| - 1].key]
  }

  function ModuleKeysIn(ms: seq<ModuleSpec>): seq<string> {
    if ms == [] then [] else ModuleKeysIn(ms[..|ms| - 1]) + [ms[|ms| - 1].key]
  }

  function FeatureKeysIn(ms: seq<ModuleSpec>): seq<string> {
    if ms == [] then [] else FeatureKeysIn(ms[..|ms| - 1]) + FeatureKeysOf(ms[|ms| - 1].features)
  }

  function ModuleKeys(seed: seq<AppSpec>): seq<string> {
    if seed == [] then [] else ModuleKeys(seed[..|seed| - 1]) + ModuleKeysIn(seed[|seed| - 1].modules)
  }

  function FeatureKeys(seed: seq<AppSpec>): seq<string> {
    if seed == [] then [] else FeatureKeys(seed[..|seed| - 1]) + FeatureKeysIn(seed[|seed| - 1].modules)
  }

  predicate Distinct(keys: seq<string>) {
    forall i, j :: 0 <= i < j < |keys| ==> keys[i] != keys[j]
  }

  // ---- Rows ----

  datatype ModuleRow = ModuleRow(
    id: Id, name: string, appType: AppType, path: Option<string>, targets: seq<UserType>,
    description: Option<string>, isActive: bool)

  datatype FeatureRow = FeatureRow(
    id: Id, moduleId: Id, name: string, path: Option<string>, targets: seq<UserType>, description: Option<string>)

  datatype ActionRow = ActionRow(id: Id, name: string)

  datatype Catalog = Catalog(
    modules: map<string, ModuleRow>,
    features: map<string, FeatureRow>,
    actions: map<(Id, string), ActionRow>,     // by feature id and key
    planModules: set<(string, Id)>,            // plan and module
    planFeatures: set<(string, Id)>,           // plan and feature
    nextId: Id)

  ghost predicate HasModuleId(d: Catalog, id: Id) {
    exists k :: k in d.modules && d.modules[k].id == id
  }

  ghost predicate HasFeatureId(d: Catalog, id: Id) {
    exists k :: k in d.features && d.features[k].id == id
  }

  // Ids are unique within a table and were all drawn from the supply.
  ghost predicate IdsUnique(d: Catalog) {
    && (forall a, b :: a in d.modules && b in d.modules && d.modules[a].id == d.modules[b].id ==> a == b)
    && (forall a, b :: a in d.features && b in d.features && d.features[a].id == d.features[b].id ==> a == b)
    && (forall k :: k in d.modules ==> d.modules[k].id < d.nextId)
    && (forall k :: k in d.features ==> d.features[k].id < d.nextId)
    && (forall a :: a in d.actions ==> d.actions[a].id < d.nextId)
  }

  // Foreign keys to modules, and foreign keys to features, resolve.
  ghost predicate ModuleLinks(d: Catalog) {
    && (forall k :: k in d.features ==> HasModuleId(d, d.features[k].moduleId))
    && (forall l :: l in d.planModules ==> HasModuleId(d, l.1))
  }

  ghost predicate FeatureLinks(d: Catalog) {
    && (forall a :: a in d.actions ==> HasFeatureId(d, a.0))
    && (forall l :: l in d.planFeatures ==> HasFeatureId(d, l.1))
  }

  ghost predicate LinksResolve(d: Catalog) {
    ModuleLinks(d) && FeatureLinks(d)
  }

  // What the database itself enforces.
  ghost predicate Consistent(d: Catalog) {
    IdsUnique(d) && LinksResolve(d)
  }

  // ---- Deletion with cascades ----

  function DropFeatures(d: Catalog, gone: set<string>): Catalog {
    var ids := set k | k in gone && k in d.features :: d.features[k].id;
    d.(features := d.features - gone,
       actions := map a | a in d.actions && a.0 !in ids :: d.actions[a],
       planFeatures := set l | l in d.planFeatures && l.1 !in ids)
  }

  function DropModules(d: Catalog, gone: set<string>): Catalog {
    var ids := set k | k in gone && k in d.modules :: d.modules[k].id;
    var orphans := set k | k in d.features && d.features[k].moduleId in ids;
    DropFeatures(d.(modules := d.modules - gone, planModules := set l | l in d.planModules && l.1 !in ids), orphans)
  }

  function NotIn<V>(table: map<string, V>, keys: seq<string>): set<string> {
    set k | k in table && k !in keys
  }

  function Pruned(d: Catalog, seed: seq<AppSpec>): Catalog {
    var d1 := DropModules(d, NotIn(d.modules, ModuleKeys(seed)));
    DropFeatures(d1, NotIn(d1.features, FeatureKeys(seed)))
  }

  // ---- Upserts ----

  function UpperChar(c: char): char {
    if 'a' <= c <= 'z' then (c as int - 32) as char else c
  }

  function Spaced(s: string): string {
    if s == "" then "" else [if s[0] == '_' then ' ' else s[0]] + Spaced(s[1..])
  }

  // The display name of an action: capitalised, with spaces for underscores after the
  // first character.
  function ActionName(key: string): string {
    if key == "" then "" else [UpperChar(key[0])] + Spaced(key[1..])
  }

  function UpsertModule(d: Catalog, app: AppType, m: ModuleSpec): (r: Catalog)
    ensures m.key in r.modules
  {
    if m.key in d.modules then
      d.(modules := d.modules[m.key := d.modules[m.key].(name := m.name, appType := app, path := Some(m.path), targets := m.targets)])
    else
      d.(modules := d.modules[m.key := ModuleRow(d.nextId, m.name, app, Some(m.path), m.targets, None, true)],
         nextId := d.nextId + 1)
  }

  function UpsertFeature(d: Catalog, moduleId: Id, f: FeatureSpec): (r: Catalog)
    ensures f.key in r.features
  {
    if f.key in d.features then
      d.(features := d.features[f.key := d.features[f.key].(name := f.name, moduleId := moduleId, path := Some(f.path), targets := f.targets)])
    else
      d.(features := d.features[f.key := FeatureRow(d.nextId, moduleId, f.name, Some(f.path), f.targets, None)],
         nextId := d.nextId + 1)
  }

  function DropActions(d: Catalog, featureId: Id, keys: seq<string>): Catalog {
    d.(actions := map a | a in d.actions && (a.0 != featureId || a.1 in keys) :: d.actions[a])
  }

  function UpsertAction(d: Catalog, featureId: Id, key: string): Catalog {
    if (featureId, key) in d.actions then
      d.(actions := d.actions[(featureId, key) := d.actions[(featureId, key)].(name := ActionName(key))])
    else
      d.(actions := d.actions[(featureId, key) := ActionRow(d.nextId, ActionName(key))], nextId := d.nextId + 1)
  }

  // ---- The nested loops ----

  function SyncActions(d: Catalog, featureId: Id, keys: seq<string>): (r: Catalog)
    ensures r == d.(actions := r.actions, nextId := r.nextId)
  {
    if keys == [] then d
    else UpsertAction(SyncActions(d, featureId, keys[..|keys| - 1]), featureId, keys[|keys| - 1])
  }

  function SyncFeature(d: Catalog, moduleId: Id, f: FeatureSpec): (r: Catalog)
    ensures r.modules == d.modules
  {
    var d1 := UpsertFeature(d, moduleId, f);
    var featureId := d1.features[f.key].id;
    SyncActions(DropActions(d1, featureId, f.actions), featureId, f.actions)
  }

  function SyncFeatures(d: Catalog, moduleId: Id, fs: seq<FeatureSpec>): (r: Catalog)
    ensures r.modules == d.modules
  {
    if fs == [] then d
    else SyncFeature(SyncFeatures(d, moduleId, fs[..|fs| - 1]), moduleId, fs[|fs| - 1])
  }

  function SyncModule(d: Catalog, app: AppType, m: ModuleSpec): Catalog {
    var d1 := UpsertModule(d, app, m);
    SyncFeatures(d1, d1.modules[m.key].id, m.features)
  }

  function SyncModules(d: Catalog, app: AppType, ms: seq<ModuleSpec>): Catalog {
    if ms == [] then d
    else SyncModule(SyncModules(d, app, ms[..|ms| - 1]), app, ms[|ms| - 1])
  }

  function SyncApps(d: Catalog, seed: seq<AppSpec>): Catalog {
    if seed == [] then d
    else SyncModules(SyncApps(d, seed[..|seed| - 1]), seed[|seed| - 1].appType, seed[|seed| - 1].modules)
  }

  function SyncAll(d: Catalog, seed: seq<AppSpec>): Catalog {
    SyncApps(Pruned(d, seed), seed)
  }
}
