/**
 * CRUDAdapters: the bag of serialization rules a store is configured with.
 * GSON rules are type adapters keyed by class; Jackson rules are modules,
 * one primary module owned by each instance plus any number of additional
 * ones. Adapters and modules are opaque: the bag never looks inside them.
 */
module Adapters {

  /** A Java class, identified by its fully qualified name. */
  type ClassName = string

  /** An opaque Jackson module; each `new` one is a distinct module. */
  class Module {
    constructor ()
    {
    }
  }

  class CRUDAdapters {
    /** The SimpleModule this instance registers its own serializers in. */
    const primaryModule: Module
    /** Pre-configured modules added with addModule. */
    var additionalModules: set<Module>
    /** GSON type adapters by class. */
    var typeAdapters: map<ClassName, object>

    constructor ()
      ensures fresh(primaryModule)
      ensures additionalModules == {} && typeAdapters == map[]
    {
      primaryModule := new Module();
      additionalModules := {};
      typeAdapters := map[];
    }

    /** The modules a Jackson ObjectMapper is given: the primary one plus every added one. */
    function Modules(): set<Module>
      reads this
    {
      additionalModules + {primaryModule}
    }

    /** getModules: a copy holding this instance's primary module and every added module, and nothing else. */
    method GetModules() returns (modules: set<Module>)
      ensures modules == Modules()
    {
      modules := additionalModules;
      modules := modules + {primaryModule};
    }

    /** addModule: modules are kept in a set, so adding one twice is the same as adding it once. */
    method AddModule(m: Module) returns (self: CRUDAdapters)
      modifies this`additionalModules
      ensures self == this
      ensures additionalModules == old(additionalModules) + {m}
    {
      additionalModules := additionalModules + {m};
      self := this;
    }

    /** getTypeAdapters: the current map, as a value. */
    method GetTypeAdapters() returns (view: map<ClassName, object>)
      ensures view.Keys == typeAdapters.Keys
      ensures forall c :: c in view ==> view[c] == typeAdapters[c]
    {
      view := typeAdapters;
    }

    /** addTypeAdapter: `clazz` now maps to `adapter`; every other class keeps its adapter. */
    method AddTypeAdapter(clazz: ClassName, adapter: object) returns (self: CRUDAdapters)
      modifies this`typeAdapters
      ensures self == this
      ensures clazz in typeAdapters && typeAdapters[clazz] == adapter
      ensures typeAdapters.Keys == old(typeAdapters).Keys + {clazz}
      ensures forall c :: c in old(typeAdapters) && c != clazz ==> typeAdapters[c] == old(typeAdapters)[c]
    {
      typeAdapters := typeAdapters[clazz := adapter];
      self := this;
    }

    /** addTypeAdapters: putAll, so the argument's entries override existing ones on shared classes. */
    method AddTypeAdapters(adapters: map<ClassName, object>) returns (self: CRUDAdapters)
      modifies this`typeAdapters
      ensures self == this
      ensures typeAdapters.Keys == old(typeAdapters).Keys + adapters.Keys
      ensures forall c :: c in adapters ==> typeAdapters[c] == adapters[c]
      ensures forall c :: c in old(typeAdapters) && c !in adapters ==> typeAdapters[c] == old(typeAdapters)[c]
    {
      typeAdapters := typeAdapters + adapters;
      self := this;
    }

    /**
     * mergeWith: a fresh instance holding the union of both type-adapter
     * maps, where this instance's adapter wins on a shared class. Its
     * additional modules are `other`'s additional modules plus both primary
     * modules; this instance's additional modules are not carried over.
     * Neither input changes.
     */
    method MergeWith(other: CRUDAdapters) returns (merged: CRUDAdapters)
      ensures fresh(merged) && fresh(merged.primaryModule)
      ensures merged.typeAdapters.Keys == typeAdapters.Keys + other.typeAdapters.Keys
      ensures forall c :: c in typeAdapters ==> merged.typeAdapters[c] == typeAdapters[c]
      ensures forall c :: c in other.typeAdapters && c !in typeAdapters ==> merged.typeAdapters[c] == other.typeAdapters[c]
      ensures merged.additionalModules == other.additionalModules + {other.primaryModule, primaryModule}
    {
      merged := new CRUDAdapters();
      var _ := merged.AddTypeAdapters(other.typeAdapters);
      var _ := merged.AddTypeAdapters(typeAdapters);
      var pending := other.additionalModules;
      while pending != {}
        invariant pending <= other.additionalModules
        invariant merged.additionalModules == other.additionalModules - pending
        invariant fresh(merged) && fresh(merged.primaryModule)
        invariant merged.typeAdapters.Keys == typeAdapters.Keys + other.typeAdapters.Keys
        invariant forall c :: c in typeAdapters ==> merged.typeAdapters[c] == typeAdapters[c]
        invariant forall c :: c in other.typeAdapters && c !in typeAdapters ==> merged.typeAdapters[c] == other.typeAdapters[c]
        decreases pending
      {
        var m :| m in pending;
        var _ := merged.AddModule(m);
        pending := pending - {m};
      }
      var _ := merged.AddModule(other.primaryModule);
      var _ := merged.AddModule(primaryModule);
    }
  }

  /**
   * The modules a merged instance hands to Jackson: `other`'s additional
   * modules, both primary modules and the merged instance's own (empty)
   * primary module. A module added to the receiver only is lost.
   */
  lemma MergedModules(receiver: CRUDAdapters, other: CRUDAdapters, merged: CRUDAdapters, lost: Module)
    requires merged.additionalModules == other.additionalModules + {other.primaryModule, receiver.primaryModule}
    requires lost in receiver.additionalModules && lost !in other.additionalModules
    requires lost != other.primaryModule && lost != receiver.primaryModule && lost != merged.primaryModule
    ensures merged.Modules() == other.additionalModules + {other.primaryModule, receiver.primaryModule, merged.primaryModule}
    ensures lost in receiver.Modules() && lost !in merged.Modules()
  {
  }
}
