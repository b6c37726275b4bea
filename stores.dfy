/**
 * Map-backed stand-ins for the portal's GroupBusinessService and
 * UserBusinessService. Each keeps its records in a `map` keyed by name and
 * raises the checked exceptions the mapper catches. Which writes the real
 * services refuse is not known here, so each store is given it as data:
 * `rejected` holds the names whose write fails with FoundationDataException,
 * and a `readOnly` user store fails every update with FoundationReadOnlyException.
 */
module Stores {
  import opened LdapTypes

  class GroupStore {
    var groups: map<string, Group>
    const rejected: set<string>

    ghost predicate Valid()
      reads this
    {
      GroupsKeyedByName(groups)
    }

    constructor (initial: map<string, Group>, rejected: set<string>)
      requires GroupsKeyedByName(initial)
      ensures Valid() && groups == initial && this.rejected == rejected
    {
      groups := initial;
      this.rejected := rejected;
    }

    /** `getGroup(name)`: the stored group, or ItemNotFoundException. */
    method GetGroup(name: string) returns (r: Result<Group, StoreError>)
      requires Valid()
      ensures name in groups <==> r.Ok?
      ensures r.Ok? ==> r.value == groups[name] && r.value.name == name
      ensures r.Err? ==> r.error == ItemNotFound
    {
      if name in groups {
        r := Ok(groups[name]);
      } else {
        r := Err(ItemNotFound);
      }
    }

    /** `createGroup(group)`: stores a group under its name unless the name is taken or refused. */
    method CreateGroup(g: Group) returns (r: Outcome<StoreError>)
      requires Valid()
      modifies this
      ensures Valid()
      ensures old(g.name in groups) ==> r == Fail(ItemAlreadyExists)
      ensures g.name !in old(groups) && g.name in rejected ==> r == Fail(FoundationData)
      ensures r.Pass? <==> g.name !in old(groups) && g.name !in rejected
      ensures groups == if r.Pass? then old(groups)[g.name := g] else old(groups)
    {
      if g.name in groups {
        r := Fail(ItemAlreadyExists);
      } else if g.name in rejected {
        r := Fail(FoundationData);
      } else {
        groups := groups[g.name := g];
        r := Pass;
      }
    }
  }

  class UserStore {
    var users: map<string, User>
    const readOnly: bool
    const rejected: set<string>

    ghost predicate Valid()
      reads this
    {
      UsersKeyedByName(users)
    }

    constructor (initial: map<string, User>, readOnly: bool, rejected: set<string>)
      requires UsersKeyedByName(initial)
      ensures Valid() && users == initial
      ensures this.readOnly == readOnly && this.rejected == rejected
    {
      users := initial;
      this.readOnly := readOnly;
      this.rejected := rejected;
    }

    /** `getUser(name)`: the stored user, or ItemNotFoundException. */
    method GetUser(name: string) returns (r: Result<User, StoreError>)
      requires Valid()
      ensures name in users <==> r.Ok?
      ensures r.Ok? ==> r.value == users[name] && r.value.username == name
      ensures r.Err? ==> r.error == ItemNotFound
    {
      if name in users {
        r := Ok(users[name]);
      } else {
        r := Err(ItemNotFound);
      }
    }

    /** `createUser(user)`: stores a user under its name unless the name is taken or refused. */
    method CreateUser(u: User) returns (r: Outcome<StoreError>)
      requires Valid()
      modifies this
      ensures Valid()
      ensures old(u.username in users) ==> r == Fail(ItemAlreadyExists)
      ensures u.username !in old(users) && u.username in rejected ==> r == Fail(FoundationData)
      ensures r.Pass? <==> u.username !in old(users) && u.username !in rejected
      ensures users == if r.Pass? then old(users)[u.username := u] else old(users)
    {
      if u.username in users {
        r := Fail(ItemAlreadyExists);
      } else if u.username in rejected {
        r := Fail(FoundationData);
      } else {
        users := users[u.username := u];
        r := Pass;
      }
    }

    /** `updateUser(name, user)`: replaces the stored record of an existing user. */
    method UpdateUser(name: string, u: User) returns (r: Outcome<StoreError>)
      requires Valid()
      requires u.username == name
      modifies this
      ensures Valid()
      ensures readOnly ==> r == Fail(FoundationReadOnly)
      ensures !readOnly && name in rejected ==> r == Fail(FoundationData)
      ensures !readOnly && name !in rejected && name !in old(users) ==> r == Fail(ItemNotFound)
      ensures r.Pass? <==> !readOnly && name !in rejected && name in old(users)
      ensures users == if r.Pass? then old(users)[name := u] else old(users)
    {
      if readOnly {
        r := Fail(FoundationReadOnly);
      } else if name in rejected {
        r := Fail(FoundationData);
      } else if name !in users {
        r := Fail(ItemNotFound);
      } else {
        users := users[name := u];
        r := Pass;
      }
    }
  }
}
