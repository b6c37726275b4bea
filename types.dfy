/**
 * The values the LDAP context mapper works with: portal groups and users, the
 * configuration it reads, and the exceptions it raises, as Dafny datatypes.
 */
module LdapTypes {

  datatype Option<+T> = None | Some(value: T)

  /** A value, or the exception that was raised instead of returning it. */
  datatype Result<+T, +E> = Ok(value: T) | Err(error: E)

  /** The outcome of a `void` call that may throw. */
  datatype Outcome<+E> = Pass | Fail(error: E)

  /** Checked exceptions of the portal's user and group business services. */
  datatype StoreError =
    | ItemNotFound
    | ItemAlreadyExists
    | FoundationData
    | FoundationReadOnly

  /** The exceptions the mapper itself raises to its caller. */
  datatype Failure =
    | ServiceError(message: string)            // AuthenticationServiceException
    | CredentialsNotFound(message: string)     // AuthenticationCredentialsNotFoundException
    | FoundationRuntime(cause: StoreError)     // FoundationRuntimeException wrapping a store error
    | IllegalState(message: string)            // IllegalStateException

  const NoGroupsMessage: string := "Cannot create user becuase no groups are assigned"
  const NotAllowedMessage: string :=
    "User is not allowed to login because the user does not exist in the portal database. "
  const UnableToPersistMessage: string := "Unable to persist user"
  const WriteBackUnsupportedMessage: string := "Only retrieving data from LDAP is currently supported"

  /**
   * The portal's role classification. The mapper only ever assigns `Role.USER`;
   * the enumeration's other members are never produced here and are folded into one.
   */
  datatype Role = UserRole | OtherRole

  datatype Group = Group(name: string, description: string, role: Role)

  datatype PropertyValue = StringValue(text: string)

  datatype PropertyDefinition = PropertyDefinition(name: string, value: PropertyValue)

  /** A portal user; `groups` has membership semantics only. */
  datatype User = User(
    username: string,
    password: string,
    enabled: bool,
    groups: set<Group>,
    properties: map<string, PropertyDefinition>)

  /** A group store is keyed by group name. */
  ghost predicate GroupsKeyedByName(groups: map<string, Group>) {
    forall k | k in groups :: groups[k].name == k
  }

  /** A user store is keyed by user name. */
  ghost predicate UsersKeyedByName(users: map<string, User>) {
    forall k | k in users :: users[k].username == k
  }

  /** The elements of a list, as a set. */
  function Elements(gs: seq<Group>): set<Group> {
    set g | g in gs
  }

  /**
   * The flat key/value configuration the mapper reads: boolean, string and
   * string-array lookups. A key that is absent reads as the caller's default
   * (booleans) or as null (strings and string arrays).
   */
  datatype Configuration = Configuration(
    booleans: map<string, bool>,
    strings: map<string, string>,
    stringArrays: map<string, seq<string>>)

  function GetBoolean(c: Configuration, key: string, default: bool): bool {
    if key in c.booleans then c.booleans[key] else default
  }

  function GetString(c: Configuration, key: string): Option<string> {
    if key in c.strings then Some(c.strings[key]) else None
  }

  function GetStringArray(c: Configuration, key: string): Option<seq<string>> {
    if key in c.stringArrays then Some(c.stringArrays[key]) else None
  }
}
