/** The grouping of elements inside a project: a component holds modules, a
    module holds elements and optionally the auxiliary profile joining it to
    the next module. Plain data with no behaviour. */
module ComponentModels {
  import opened Wrappers
  import opened ElementModels

  datatype AuxProfile = AuxProfile(id: string, angle: real, notes: string)

  datatype Module = Module(id: string, elements: seq<Element>, auxProfile: Option<AuxProfile>)

  datatype Component = Component(id: string, modules: seq<Module>)
}
