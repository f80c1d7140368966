/** The project registry of blockchain/projects/registry.js: contract addresses
    per project id, and a pointer to the current project. */
module Registry {
  import opened Wrappers

  /** A project's contract addresses, by contract name. */
  type Addresses = map<string, string>

  /** The error `switchTo` throws for an unknown id. */
  const NotRegisteredMessage: string := "项目未注册"

  class ProjectRegistry {
    var projects: map<string, Addresses>
    /** `null` until something is registered. */
    var current: Option<string>

    /** Every current project is registered. */
    ghost predicate Valid()
      reads this
    {
      current.Some? ==> current.value in projects
    }

    constructor ()
      ensures Valid() && projects == map[] && current == None
    {
      projects := map[];
      current := None;
    }

    /** `this.current` is truthy: set, and not the empty string. */
    predicate HasCurrent()
      reads this
    {
      current.Some? && current.value != ""
    }

    /** `register(id, addresses)`: stores a copy under `id`; the first id registered while nothing is current becomes current. */
    method Register(id: string, addresses: Addresses)
      requires Valid()
      modifies this
      ensures Valid()
      ensures projects == old(projects)[id := addresses]
      ensures old(HasCurrent()) ==> current == old(current)
      ensures !old(HasCurrent()) ==> current == Some(id)
    {
      projects := projects[id := addresses];
      if !HasCurrent() {
        current := Some(id);
      }
    }

    /** `switchTo(id)`: throws for an unregistered id and leaves `current` alone; otherwise makes `id` current and returns its addresses. */
    method SwitchTo(id: string) returns (r: Result<Addresses>)
      requires Valid()
      modifies this
      ensures Valid()
      ensures projects == old(projects)
      ensures id !in old(projects) ==> r == Err(NotRegisteredMessage) && current == old(current)
      ensures id in old(projects) ==> r == Ok(old(projects)[id]) && current == Some(id)
    {
      if id !in projects {
        return Err(NotRegisteredMessage);
      }
      current := Some(id);
      r := Ok(projects[id]);
    }

    /** The `addresses` getter. */
    function CurrentAddresses(): (a: Addresses)
      reads this
      ensures !HasCurrent() ==> a == map[]
      ensures HasCurrent() && current.value in projects ==> a == projects[current.value]
      ensures HasCurrent() && current.value !in projects ==> a == map[]
    {
      if !HasCurrent() then map[]
      else if current.value in projects then projects[current.value]
      else map[]
    }
  }
}
