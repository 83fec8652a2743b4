/** The frontend's top-level module switches. */
module FeatureFlags {
  /** `ModuleFlag`: the keys of `ENABLED_MODULES`. */
  datatype ModuleFlag = Dashboard | Parts | Stock | Manufacturing | Purchasing | Sales | Events | Rentals

  /** `ENABLED_MODULES`. */
  const EnabledModules: map<ModuleFlag, bool> := map[
    Dashboard := true,
    Parts := true,
    Stock := true,
    Manufacturing := false,
    Purchasing := false,
    Sales := false,
    Events := true,
    Rentals := true]

  /** The record has an entry for every module key. */
  lemma EveryModuleHasAFlag(m: ModuleFlag)
    ensures m in EnabledModules
  {
  }

  /** `isModuleEnabled`: `ENABLED_MODULES[module] === true`. */
  predicate IsModuleEnabled(m: ModuleFlag) {
    EveryModuleHasAFlag(m);
    EnabledModules[m] == true
  }

  /** Exactly dashboard, parts, stock, events and rentals are enabled. */
  lemma EnabledModulesAre(m: ModuleFlag)
    ensures IsModuleEnabled(m) <==> m in {Dashboard, Parts, Stock, Events, Rentals}
    ensures !IsModuleEnabled(m) <==> m in {Manufacturing, Purchasing, Sales}
  {
  }
}
