/** Compositions: services with their dependencies, profiles, init containers and mounts. */
module Compositions {
  import opened Graphs

  type Name = Id

  datatype InitContainer = InitContainer(name: string, image: string, volumes: seq<string>)

  datatype Service = Service(
    image: string,
    restart: string,
    networkMode: string,
    volumes: seq<string>,
    profiles: seq<string>,
    extensionProfiles: seq<string>,
    inits: seq<InitContainer>,
    dependsOn: map<Name, string>)

  type Services = map<Name, Service>

  datatype Composition = Composition(services: Services, volumes: set<Name>)

  /** A pair per depends_on entry. */
  function DependsOn(services: Services): Relation {
    set s, d | s in services && d in services[s].dependsOn :: (s, d)
  }

  lemma {:induction false} DependsOnPair(services: Services, s: Name, d: Name)
    ensures (s, d) in DependsOn(services) <==> s in services && d in services[s].dependsOn
  { }

  /** Every depends_on target is a service. */
  ghost predicate TargetsExist(services: Services) {
    forall s, d :: s in services && d in services[s].dependsOn ==> d in services
  }

  ghost predicate WellFounded(services: Services) {
    TargetsExist(services) && Acyclic(DependsOn(services))
  }
}
