/** The artifact and instance bookkeeping of the Wasm runtime: the static
    catalog of available artifacts, the set of deployed artifacts, and the two
    indices of started service instances (by numeric id and by name).

    Artifact identifiers, service factories and services come from the core
    library; here they are plain values compared by equality, and a service
    object is an opaque handle. */
module WasmRuntime {
  import opened Base
  import opened Text

  type InstanceId = uint32

  /** A semantic version, kept as its textual form. */
  type Version = string

  /** Identifier of a deployable artifact. */
  datatype ArtifactId = ArtifactId(runtimeId: uint32, name: string, version: Version)

  /** The textual form of an artifact identifier, `runtime:name:version`. */
  function ArtifactDisplay(a: ArtifactId): string
  {
    Decimal(a.runtimeId) + ":" + a.name + ":" + a.version
  }

  /** An opaque service object (`Box<dyn Service>`). */
  datatype Service = Service(handle: nat)

  /** A service factory: the artifact it serves and the service it creates. */
  datatype ServiceFactory = ServiceFactory(artifactId: ArtifactId, created: Service)

  datatype InstanceDescriptor = InstanceDescriptor(id: InstanceId, name: string)

  datatype InstanceSpec = InstanceSpec(id: InstanceId, name: string, artifact: ArtifactId)

  /** A started service instance. */
  datatype Instance = Instance(id: InstanceId, name: string, service: Service, artifactId: ArtifactId)
  {
    function Descriptor(): (d: InstanceDescriptor)
      ensures d.id == id && d.name == name
    {
      InstanceDescriptor(id, name)
    }
  }

  /** An optional runtime capability; the runtime supports none. */
  datatype RuntimeFeature = RuntimeFeature(code: nat)

  datatype InitMigrationError = NotSupported

  datatype MigrationScript = MigrationScript(name: string, endVersion: Version)

  /** The runtime's own error kinds. */
  datatype ErrorKind = IncorrectArtifactId | UnableToDeploy

  datatype ExecutionError = ExecutionError(kind: ErrorKind, description: string)

  /** Every catalog entry is keyed by its own factory's artifact. */
  ghost predicate CatalogKeyed(catalog: map<ArtifactId, ServiceFactory>)
  {
    forall a | a in catalog :: catalog[a].artifactId == a
  }

  /** Text of the `UnableToDeploy` description for `artifact`, given the
      rendered list of available artifacts. */
  function UnableToDeployDescription(artifact: ArtifactId, available: string): (d: string)
    ensures |available| < |d| && d[|d| - |available|..] == available
  {
    "Runtime failed to deploy artifact with id " + ArtifactDisplay(artifact)
    + ", it is not listed among available artifacts. Available artifacts: " + available
  }

  /** The description names the artifact that could not be deployed. */
  lemma DescriptionMentionsArtifact(artifact: ArtifactId, available: string)
    ensures Mentions(UnableToDeployDescription(artifact, available), ArtifactDisplay(artifact))
  {
    var head := "Runtime failed to deploy artifact with id ";
    var description := UnableToDeployDescription(artifact, available);
    assert description[|head|..|head| + |ArtifactDisplay(artifact)|] == ArtifactDisplay(artifact);
    assert OccursAt(description, ArtifactDisplay(artifact), |head|);
  }

  /** The description repeats everything the list of available artifacts mentions. */
  lemma DescriptionKeepsMentions(artifact: ArtifactId, available: string, t: string)
    requires Mentions(available, t)
    ensures Mentions(UnableToDeployDescription(artifact, available), t)
  {
    var i :| OccursAt(available, t, i);
    var description := UnableToDeployDescription(artifact, available);
    var shift := |description| - |available|;
    assert description == description[..shift] + available;
    assert description[shift + i..shift + i + |t|] == available[i..i + |t|];
    assert OccursAt(description, t, shift + i);
  }

  /** The textual forms of `ids`, in order. */
  function DisplayAll(ids: seq<ArtifactId>): (r: seq<string>)
    ensures |r| == |ids|
    ensures forall i | 0 <= i < |ids| :: r[i] == ArtifactDisplay(ids[i])
  {
    seq(|ids|, i requires 0 <= i < |ids| => ArtifactDisplay(ids[i]))
  }

  /** The two instance indices as one value. */
  datatype ServiceTable = ServiceTable(byId: map<InstanceId, Instance>, byName: map<string, InstanceId>)

  /** The indices agree: each is the inverse of the other, so no id is bound
      to two names and no name to two ids. */
  ghost predicate Agree(t: ServiceTable)
  {
    && (forall id | id in t.byId ::
          t.byId[id].id == id && t.byId[id].name in t.byName && t.byName[t.byId[id].name] == id)
    && (forall n | n in t.byName ::
          t.byName[n] in t.byId && t.byId[t.byName[n]].name == n)
  }

  /** Neither `id` nor `name` is bound to a partner other than the other. */
  ghost predicate Compatible(t: ServiceTable, id: InstanceId, name: string)
  {
    && (id in t.byId ==> t.byId[id].name == name)
    && (name in t.byName ==> t.byName[name] == id)
  }

  /** The table after `add_started_service(instance)`. */
  function Added(t: ServiceTable, instance: Instance): (r: ServiceTable)
    ensures instance.id in r.byId && r.byId[instance.id] == instance
    ensures instance.name in r.byName && r.byName[instance.name] == instance.id
    ensures r.byId.Keys == t.byId.Keys + {instance.id}
    ensures r.byName.Keys == t.byName.Keys + {instance.name}
    ensures forall id | id in t.byId && id != instance.id :: r.byId[id] == t.byId[id]
    ensures forall n | n in t.byName && n != instance.name :: r.byName[n] == t.byName[n]
  {
    ServiceTable(t.byId[instance.id := instance], t.byName[instance.name := instance.id])
  }

  /** The table after `remove_started_service` of an instance with `id` and `name`. */
  function Removed(t: ServiceTable, id: InstanceId, name: string): (r: ServiceTable)
    ensures r.byId.Keys == t.byId.Keys - {id}
    ensures r.byName.Keys == t.byName.Keys - {name}
    ensures forall i | i in r.byId :: r.byId[i] == t.byId[i]
    ensures forall n | n in r.byName :: r.byName[n] == t.byName[n]
  {
    ServiceTable(t.byId - {id}, t.byName - {name})
  }

  /** Adding an instance keeps the indices in agreement exactly when its id
      and name are not already bound to other partners. */
  lemma AddedAgreesIff(t: ServiceTable, instance: Instance)
    requires Agree(t)
    ensures Agree(Added(t, instance)) <==> Compatible(t, instance.id, instance.name)
  {
  }

  /** Removing an id and a name keeps the indices in agreement exactly when
      they were partners of each other or both unbound. */
  lemma RemovedAgreesIff(t: ServiceTable, id: InstanceId, name: string)
    requires Agree(t)
    ensures Agree(Removed(t, id, name)) <==> Compatible(t, id, name)
  {
  }

  /** Adding a fresh instance and removing it again restores the table. */
  lemma AddedThenRemoved(t: ServiceTable, instance: Instance)
    requires instance.id !in t.byId && instance.name !in t.byName
    ensures Removed(Added(t, instance), instance.id, instance.name) == t
  {
  }

  /** The Wasm runtime's bookkeeping state. The catalog is fixed when the
      runtime is built; the other fields change in place. */
  class WasmRuntime {
    const availableArtifacts: map<ArtifactId, ServiceFactory>
    var deployedArtifacts: set<ArtifactId>
    var startedServices: map<InstanceId, Instance>
    var startedServicesByName: map<string, InstanceId>
    var changedServicesSinceLastBlock: bool

    /** The state `WasmRuntimeBuilder::build` produces. */
    constructor Build(catalog: map<ArtifactId, ServiceFactory>)
      ensures availableArtifacts == catalog
      ensures deployedArtifacts == {}
      ensures startedServices == map[] && startedServicesByName == map[]
      ensures changedServicesSinceLastBlock
      ensures CatalogKeyed(catalog) ==> Valid()
    {
      availableArtifacts := catalog;
      deployedArtifacts := {};
      startedServices := map[];
      startedServicesByName := map[];
      changedServicesSinceLastBlock := true;
    }

    function Table(): ServiceTable
      reads this
    {
      ServiceTable(startedServices, startedServicesByName)
    }

    /** The invariant the orchestrating core keeps by using the runtime as
        contracted: the catalog is keyed by artifact, only available artifacts
        are deployed, and the instance indices agree. */
    ghost predicate Valid()
      reads this
    {
      && CatalogKeyed(availableArtifacts)
      && deployedArtifacts <= availableArtifacts.Keys
      && Agree(Table())
    }

    /** `is_artifact_deployed` */
    function IsArtifactDeployed(id: ArtifactId): (b: bool)
      reads this
      ensures b <==> id in deployedArtifacts
    {
      id in deployedArtifacts
    }

    /** `is_supported`: the runtime supports no optional feature. */
    function IsSupported(feature: RuntimeFeature): (b: bool)
      ensures !b
    {
      false
    }

    /** `migrate`: no data migration exists for any artifact or version. */
    function Migrate(newArtifact: ArtifactId, dataVersion: Version): (r: Result<Option<MigrationScript>, InitMigrationError>)
      ensures r.Err? && r.error == NotSupported
    {
      Err(NotSupported)
    }

    /** `artifacts_to_pretty_string`: "None" for an empty catalog, otherwise
        every available artifact rendered once, joined by ", ", in the hash
        map's (unspecified) key order, returned as the ghost `order`. */
    method ArtifactsToPrettyString() returns (s: string, ghost order: seq<ArtifactId>)
      ensures availableArtifacts == map[] ==> s == "None"
      ensures availableArtifacts != map[] ==> s == Join(DisplayAll(order), ", ")
      ensures forall i | 0 <= i < |order| :: order[i] in availableArtifacts
      ensures forall a | a in availableArtifacts :: a in order
      ensures forall i, j | 0 <= i < j < |order| :: order[i] != order[j]
      ensures forall a | a in availableArtifacts :: Mentions(s, ArtifactDisplay(a))
    {
      if availableArtifacts == map[] {
        return "None", [];
      }
      var rest := availableArtifacts.Keys;
      var keys: seq<ArtifactId> := [];
      while rest != {}
        invariant rest <= availableArtifacts.Keys
        invariant forall i | 0 <= i < |keys| :: keys[i] in availableArtifacts && keys[i] !in rest
        invariant forall a | a in availableArtifacts :: a in rest || a in keys
        invariant forall i, j | 0 <= i < j < |keys| :: keys[i] != keys[j]
        decreases rest
      {
        var k :| k in rest;
        keys := keys + [k];
        rest := rest - {k};
      }
      s := Join(DisplayAll(keys), ", ");
      order := keys;
      forall a | a in availableArtifacts
        ensures Mentions(s, ArtifactDisplay(a))
      {
        var i :| 0 <= i < |keys| && keys[i] == a;
        JoinMentions(DisplayAll(keys), ", ", i);
      }
    }

    /** `deploy`: marks an available artifact as deployed, or fails with
        `UnableToDeploy` whose description names the artifact and every
        available one. Deploying twice is a bug in the core (a panic), hence
        the precondition. */
    method Deploy(artifact: ArtifactId) returns (r: Result<(), ExecutionError>)
      requires !IsArtifactDeployed(artifact)
      modifies this`deployedArtifacts
      ensures r.Ok? <==> artifact in availableArtifacts
      ensures r.Ok? ==> deployedArtifacts == old(deployedArtifacts) + {artifact} && IsArtifactDeployed(artifact)
      ensures r.Err? ==> deployedArtifacts == old(deployedArtifacts)
      ensures r.Err? ==> && r.error.kind == UnableToDeploy
                         && Mentions(r.error.description, ArtifactDisplay(artifact))
                         && forall a | a in availableArtifacts :: Mentions(r.error.description, ArtifactDisplay(a))
      ensures old(Valid()) ==> Valid()
    {
      if artifact !in availableArtifacts {
        var available, order := ArtifactsToPrettyString();
        var description := UnableToDeployDescription(artifact, available);
        DescriptionMentionsArtifact(artifact, available);
        forall a | a in availableArtifacts
          ensures Mentions(description, ArtifactDisplay(a))
        {
          DescriptionKeepsMentions(artifact, available, ArtifactDisplay(a));
        }
        return Err(ExecutionError(UnableToDeploy, description));
      }
      deployedArtifacts := deployedArtifacts + {artifact};
      return Ok(());
    }

    /** `deploy_artifact`: a non-empty deploy spec is refused with
        `IncorrectArtifactId` and changes nothing; an empty one deploys. */
    method DeployArtifact(artifact: ArtifactId, spec: Bytes) returns (r: Result<(), ExecutionError>)
      requires spec != [] || !IsArtifactDeployed(artifact)
      modifies this`deployedArtifacts
      ensures spec != [] ==> r.Err? && r.error.kind == IncorrectArtifactId && deployedArtifacts == old(deployedArtifacts)
      ensures spec == [] ==> (r.Ok? <==> artifact in availableArtifacts)
      ensures spec == [] && r.Ok? ==> deployedArtifacts == old(deployedArtifacts) + {artifact} && IsArtifactDeployed(artifact)
      ensures spec == [] && r.Err? ==> deployedArtifacts == old(deployedArtifacts) && r.error.kind == UnableToDeploy
      ensures spec == [] && r.Err? ==>
                && Mentions(r.error.description, ArtifactDisplay(artifact))
                && forall a | a in availableArtifacts :: Mentions(r.error.description, ArtifactDisplay(a))
      ensures old(Valid()) ==> Valid()
    {
      if spec == [] {
        r := Deploy(artifact);
      } else {
        // The kind's own description text is defined outside this model.
        r := Err(ExecutionError(IncorrectArtifactId, ""));
      }
    }

    /** `unload_artifact`: forgets the artifact. Unloading one that was never
        deployed is a bug in the core that a debug build asserts against; a
        release build removes nothing, which the contract below covers. */
    method UnloadArtifact(artifact: ArtifactId)
      modifies this`deployedArtifacts
      ensures deployedArtifacts == old(deployedArtifacts) - {artifact}
      ensures !IsArtifactDeployed(artifact)
      ensures old(Valid()) ==> Valid()
    {
      deployedArtifacts := deployedArtifacts - {artifact};
    }

    /** `add_started_service`: binds the instance under its id and its name. */
    method AddStartedService(instance: Instance)
      modifies this`startedServices, this`startedServicesByName
      ensures Table() == Added(old(Table()), instance)
      ensures startedServices[instance.id] == instance && startedServicesByName[instance.name] == instance.id
      ensures old(Agree(Table())) ==> (Agree(Table()) <==> Compatible(old(Table()), instance.id, instance.name))
      ensures old(Valid()) && Compatible(old(Table()), instance.id, instance.name) ==> Valid()
    {
      if Agree(Table()) {
        AddedAgreesIff(Table(), instance);
      }
      startedServicesByName := startedServicesByName[instance.name := instance.id];
      startedServices := startedServices[instance.id := instance];
    }

    /** `remove_started_service`: drops exactly the spec's name from the name
        index and its id from the id index. */
    method RemoveStartedService(spec: InstanceSpec)
      modifies this`startedServices, this`startedServicesByName
      ensures Table() == Removed(old(Table()), spec.id, spec.name)
      ensures spec.id !in startedServices && spec.name !in startedServicesByName
      ensures old(Agree(Table())) ==> (Agree(Table()) <==> Compatible(old(Table()), spec.id, spec.name))
      ensures old(Valid()) && Compatible(old(Table()), spec.id, spec.name) ==> Valid()
    {
      if Agree(Table()) {
        RemovedAgreesIff(Table(), spec.id, spec.name);
      }
      startedServicesByName := startedServicesByName - {spec.name};
      startedServices := startedServices - {spec.id};
    }

    /** `new_service`: a new instance of an available artifact, named and
        numbered by the descriptor; asking for an artifact outside the catalog
        is a bug in the core (a panic). The runtime is not changed. */
    function NewService(artifact: ArtifactId, descriptor: InstanceDescriptor): (r: Result<Instance, ExecutionError>)
      requires artifact in availableArtifacts
      ensures r.Ok?
      ensures r.value.id == descriptor.id && r.value.name == descriptor.name
      ensures r.value.Descriptor() == descriptor
      ensures r.value.artifactId == artifact
      ensures r.value.service == availableArtifacts[artifact].created
    {
      Ok(Instance(descriptor.id, descriptor.name, availableArtifacts[artifact].created, artifact))
    }

    /** The instance `execute` calls into: executing for an unknown instance
        is a bug in the core (a panic). With agreeing indices the instance
        found carries that id and is the one its name leads to. */
    function ExecuteTarget(id: InstanceId): (r: Instance)
      reads this
      requires id in startedServices
      ensures r in startedServices.Values
      ensures Agree(Table()) ==> r.id == id && r.name in startedServicesByName && startedServicesByName[r.name] == id
    {
      startedServices[id]
    }
  }

  /** Builder of the runtime: collects the catalog of available artifacts. */
  class WasmRuntimeBuilder {
    var availableArtifacts: map<ArtifactId, ServiceFactory>

    constructor ()
      ensures availableArtifacts == map[]
    {
      availableArtifacts := map[];
    }

    /** `with_factory`: keys the factory by its own artifact; a later factory
        for the same artifact replaces the earlier one. */
    method WithFactory(factory: ServiceFactory)
      modifies this
      ensures availableArtifacts == old(availableArtifacts)[factory.artifactId := factory]
      ensures old(CatalogKeyed(availableArtifacts)) ==> CatalogKeyed(availableArtifacts)
    {
      availableArtifacts := availableArtifacts[factory.artifactId := factory];
    }

    /** `build`: a runtime over this catalog with nothing deployed or started. */
    method Build() returns (runtime: WasmRuntime)
      ensures fresh(runtime)
      ensures runtime.availableArtifacts == availableArtifacts
      ensures runtime.deployedArtifacts == {}
      ensures runtime.startedServices == map[] && runtime.startedServicesByName == map[]
      ensures runtime.changedServicesSinceLastBlock
      ensures CatalogKeyed(availableArtifacts) ==> runtime.Valid()
    {
      runtime := new WasmRuntime.Build(availableArtifacts);
    }
  }
}
