/** Projects: a named quote for one client contact, with extra costs, the
    components being quoted and the VAT rate. The program draws identifiers
    at random and stamps creation times from the clock; both are parameters
    here. */
module ProjectModels {
  import opened Wrappers
  import opened ComponentModels

  datatype ContactType = Person | Company

  datatype Contact = Contact(
    contactType: ContactType,
    name: string,
    phone: string,
    email: string,
    address: string,
    district: string,
    city: string)

  datatype ProjectCost = ProjectCost(name: string, isPercentage: bool, value: real)

  /** `createdAt` is an opaque clock reading. */
  datatype Project = Project(
    id: string,
    name: string,
    createdAt: int,
    contact: Contact,
    costs: seq<ProjectCost>,
    components: seq<Component>,
    ivaRate: real)

  datatype ProjectError = EmptyProjectName | EmptyContactName | InvalidContact(cause: ProjectError)

  /** A contact is valid exactly when it has a name. */
  function ValidateContact(contact: Contact): (r: Option<ProjectError>)
    ensures r.Some? <==> contact.name == ""
    ensures r.Some? ==> r.value == EmptyContactName
  {
    if contact.name == "" then Some(EmptyContactName) else None
  }

  /** Builds a project; `None` for costs or components stands for a nil
      slice and becomes the empty sequence. The project name is checked
      before the contact. */
  function NewProject(id: string, createdAt: int, name: string, contact: Contact,
                      costs: Option<seq<ProjectCost>>, components: Option<seq<Component>>,
                      ivaRate: real): (r: Result<Project, ProjectError>)
    ensures name == "" ==> r == Failure(EmptyProjectName)
    ensures name != "" && contact.name == "" ==> r == Failure(InvalidContact(EmptyContactName))
    ensures r.Success? <==> name != "" && contact.name != ""
    ensures r.Success? ==>
      && r.value.id == id && r.value.createdAt == createdAt
      && r.value.name == name && r.value.contact == contact && r.value.ivaRate == ivaRate
      && (costs.None? ==> r.value.costs == []) && (costs.Some? ==> r.value.costs == costs.value)
      && (components.None? ==> r.value.components == [])
      && (components.Some? ==> r.value.components == components.value)
  {
    if name == "" then Failure(EmptyProjectName)
    else match ValidateContact(contact)
      case Some(e) => Failure(InvalidContact(e))
      case None =>
        Success(Project(id, name, createdAt, contact, costs.GetOr([]), components.GetOr([]), ivaRate))
  }

  /** Appends one component after the existing ones; nothing else changes. */
  function AddComponent(p: Project, component: Component): (r: Project)
    ensures |r.components| == |p.components| + 1
    ensures r.components[..|p.components|] == p.components
    ensures r.components[|p.components|] == component
    ensures r.(components := p.components) == p
  {
    p.(components := p.components + [component])
  }

  /** Adding components one at a time lists them in the order they were
      added, after the components already there. */
  lemma {:induction false} AddComponentsInOrder(p: Project, cs: seq<Component>)
    ensures AddAll(p, cs).components == p.components + cs
    ensures AddAll(p, cs).(components := p.components) == p
    decreases |cs|
  {
    if |cs| > 0 {
      var last := cs[|cs| - 1];
      AddComponentsInOrder(p, cs[..|cs| - 1]);
      assert cs[..|cs| - 1] + [last] == cs;
    }
  }

  /** Repeated AddComponent, oldest first. */
  function AddAll(p: Project, cs: seq<Component>): Project
    decreases |cs|
  {
    if |cs| == 0 then p else AddComponent(AddAll(p, cs[..|cs| - 1]), cs[|cs| - 1])
  }
}
