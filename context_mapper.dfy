/**
 * The LDAP user-details context mapper: after an LDAP bind has succeeded, it
 * turns the user's LDAP authorities into portal groups (creating groups on
 * demand), finds or registers the portal user, and returns the user object the
 * security framework keeps for the session.
 */
module ContextMapper {
  import opened LdapTypes
  import opened JavaStrings
  import opened Stores
  import opened GroupMapping

  /** A user as `registerUser` builds it, before it is stored. */
  function NewUser(userName: string, password: string, enabled: bool, groups: seq<Group>): User {
    User(userName, password, enabled, Elements(groups), map[])
  }

  /** The session copy of a user: force-enabled when the session flag is set, otherwise as stored. */
  function SessionView(u: User, enableUserForCurrentSession: bool): (s: User)
    ensures s.enabled == (u.enabled || enableUserForCurrentSession)
    ensures s.(enabled := u.enabled) == u
  {
    if enableUserForCurrentSession then u.(enabled := true) else u
  }

  /**
   * `mapLdapAttributes`: the source leaves its body empty ("not yet
   * implemented"), so it changes nothing. It is still called where the source
   * calls it, so that its call conditions stay visible.
   */
  function MapLdapAttributes(u: User): User {
    u
  }

  /** `setEmail`: records the email as the user's "email" property, unless it is null. */
  function SetEmail(u: User, email: Option<string>): (r: User)
    ensures email.None? ==> r == u
    ensures email.Some? ==> "email" in r.properties &&
                            r.properties["email"] == PropertyDefinition("email", StringValue(email.value))
    ensures r.properties - {"email"} == u.properties - {"email"}
    ensures r.(properties := u.properties) == u
  {
    match email
    case None => u
    case Some(e) => u.(properties := u.properties["email" := PropertyDefinition("email", StringValue(e))])
  }

  class LdapUserDetailsContextMapper {
    const config: Configuration
    const userBusinessService: UserStore
    const groupBusinessService: GroupStore

    const autoCreateUsers: bool
    const autoCreateGroup: bool
    const onlyPerformAuthentication: bool
    const storeLdapAttributes: bool
    const updateLdapGroups: bool
    const enableNewlyCreatedUsers: bool
    const mapLdapAttributes: bool
    const enableUserForCurrentSession: bool

    ghost predicate Valid()
      reads this, userBusinessService, groupBusinessService
    {
      userBusinessService.Valid() && groupBusinessService.Valid()
    }

    /** Reads the eight policy flags once, each with its documented default. */
    constructor (userBusinessService: UserStore, groupBusinessService: GroupStore, config: Configuration)
      requires userBusinessService.Valid() && groupBusinessService.Valid()
      ensures Valid()
      ensures this.userBusinessService == userBusinessService
      ensures this.groupBusinessService == groupBusinessService
      ensures this.config == config
      ensures autoCreateGroup == GetBoolean(config, "ldap.group.create", true)
      ensures autoCreateUsers == GetBoolean(config, "ldap.user.create", true)
      ensures enableNewlyCreatedUsers == GetBoolean(config, "ldap.user.enable", true)
      ensures onlyPerformAuthentication == GetBoolean(config, "ldap.authenticate.only", false)
      ensures storeLdapAttributes == GetBoolean(config, "ldap.user.mapping.store", false)
      ensures updateLdapGroups == GetBoolean(config, "ldap.group.update", false)
      ensures mapLdapAttributes == GetBoolean(config, "ldap.user.mapping.attributes", false)
      ensures enableUserForCurrentSession == GetBoolean(config, "ldap.user.enable.session", false)
    {
      this.userBusinessService := userBusinessService;
      this.groupBusinessService := groupBusinessService;
      this.config := config;
      autoCreateGroup := GetBoolean(config, "ldap.group.create", true);
      autoCreateUsers := GetBoolean(config, "ldap.user.create", true);
      enableNewlyCreatedUsers := GetBoolean(config, "ldap.user.enable", true);
      onlyPerformAuthentication := GetBoolean(config, "ldap.authenticate.only", false);
      storeLdapAttributes := GetBoolean(config, "ldap.user.mapping.store", false);
      updateLdapGroups := GetBoolean(config, "ldap.group.update", false);
      mapLdapAttributes := GetBoolean(config, "ldap.user.mapping.attributes", false);
      enableUserForCurrentSession := GetBoolean(config, "ldap.user.enable.session", false);
    }

    /** What group translation depends on besides the store contents. */
    function TranslationEnv(): Env {
      Env(config, autoCreateGroup, groupBusinessService.rejected)
    }

    /**
     * `getPortalGroup`: finds a group by name, or creates it when auto-creation
     * is on. A missing group without auto-creation is a soft failure (null); a
     * refused creation is a fatal FoundationRuntimeException.
     */
    method GetPortalGroup(portalGroupName: string, ldapAuthority: Option<string>)
      returns (r: Result<Option<Group>, Failure>)
      requires groupBusinessService.Valid()
      modifies groupBusinessService
      ensures groupBusinessService.Valid()
      ensures Resolved(r, groupBusinessService.groups) ==
              ResolveGroup(TranslationEnv(), old(groupBusinessService.groups), portalGroupName, ldapAuthority)
    {
      var found := groupBusinessService.GetGroup(portalGroupName);
      if found.Ok? {
        return Ok(Some(found.value));
      }
      if autoCreateGroup {
        var group := NewGroup(portalGroupName, ldapAuthority);
        var created := groupBusinessService.CreateGroup(group);
        if created.Fail? {
          // ItemAlreadyExistsException and FoundationDataException become fatal.
          return Err(FoundationRuntime(created.error));
        }
        r := Ok(Some(group));
      } else {
        r := Ok(None);
      }
    }

    /**
     * `mapLdapAuthoritiesToGroups`: for each authority in turn, the groups its
     * configured names resolve to, in configured order; then the default group.
     */
    method MapLdapAuthoritiesToGroups(authorities: Option<seq<string>>) returns (r: Result<seq<Group>, Failure>)
      requires groupBusinessService.Valid()
      modifies groupBusinessService
      ensures groupBusinessService.Valid()
      ensures Resolved(r, groupBusinessService.groups) ==
              Translate(TranslationEnv(), old(groupBusinessService.groups), authorities)
    {
      var env := TranslationEnv();
      var groups: seq<Group> := [];
      if authorities.Some? && |authorities.value| > 0 {
        var claims := authorities.value;
        var i := 0;
        while i < |claims|
          invariant 0 <= i <= |claims|
          invariant groupBusinessService.Valid()
          invariant ResolveAuthorities(env, old(groupBusinessService.groups), claims[..i]) ==
                    Resolved(Ok(groups), groupBusinessService.groups)
        {
          var mapped := MapAuthorityToGroups(claims[i]);
          ResolveAuthoritiesLast(env, old(groupBusinessService.groups), claims[..i + 1]);
          assert claims[..i + 1][..i] == claims[..i];
          if mapped.Err? {
            ResolveAuthoritiesStopsAtFailure(env, old(groupBusinessService.groups), claims, i + 1);
            return Err(mapped.error);
          }
          groups := groups + mapped.value;
          i := i + 1;
        }
        assert claims[..|claims|] == claims;
      }
      ghost var base := Resolved(Ok(groups), groupBusinessService.groups);
      assert base == ResolveAuthorities(env, old(groupBusinessService.groups),
                                        if authorities.Some? then authorities.value else []);
      if GetBoolean(config, AssignDefaultKey, false) {
        var portalGroupName := GetString(config, DefaultGroupKey);
        if !IsEmpty(portalGroupName) {
          assert DefaultGroupName(config) == portalGroupName;
          var group := GetPortalGroup(portalGroupName.value, None);
          if group.Err? {
            return Err(group.error);
          }
          if group.value.Some? {
            groups := groups + [group.value.value];
          }
          r := Ok(groups);
          assert Resolved(r, groupBusinessService.groups) == Add(base.result.value, Resolved(group, groupBusinessService.groups));
          return;
        }
      }
      assert DefaultGroupName(config).None?;
      r := Ok(groups);
    }

    /**
     * The body of the authority loop of `mapLdapAuthoritiesToGroups`: looks up
     * the names configured for one authority and resolves each, trimmed,
     * keeping the groups that resolve.
     */
    method MapAuthorityToGroups(authorityName: string) returns (r: Result<seq<Group>, Failure>)
      requires groupBusinessService.Valid()
      modifies groupBusinessService
      ensures groupBusinessService.Valid()
      ensures Resolved(r, groupBusinessService.groups) ==
              ResolveNames(TranslationEnv(), old(groupBusinessService.groups), authorityName,
                           MappedNames(config, authorityName))
    {
      var env := TranslationEnv();
      var groups: seq<Group> := [];
      var ldapGroupName := ReplaceSpaces(authorityName);
      var portalGroupNames := GetStringArray(config, MappingPrefix + ldapGroupName);
      if portalGroupNames.Some? {
        var names := portalGroupNames.value;
        assert names[..0] == [];
        for j := 0 to |names|
          invariant groupBusinessService.Valid()
          invariant ResolveNames(env, old(groupBusinessService.groups), authorityName, names[..j]) ==
                    Resolved(Ok(groups), groupBusinessService.groups)
        {
          ResolveNamesLast(env, old(groupBusinessService.groups), authorityName, names[..j + 1]);
          assert names[..j + 1][..j] == names[..j];
          var group := GetPortalGroup(Trim(names[j]), Some(authorityName));
          if group.Err? {
            ResolveNamesStopsAtFailure(env, old(groupBusinessService.groups), authorityName, names, j + 1);
            return Err(group.error);
          }
          if group.value.Some? {
            groups := groups + [group.value.value];
          }
        }
        assert names[..|names|] == names;
      }
      r := Ok(groups);
    }

    /**
     * `registerUser`: builds the new user (generated password, the configured
     * enabled flag, the translated groups) and stores it; any store failure is a
     * fatal FoundationRuntimeException.
     */
    method RegisterUser(userName: string, password: string, groups: seq<Group>) returns (r: Result<User, Failure>)
      requires userBusinessService.Valid()
      modifies userBusinessService
      ensures userBusinessService.Valid()
      ensures var u := NewUser(userName, password, enableNewlyCreatedUsers, groups);
              if userName in old(userBusinessService.users) then
                r == Err(FoundationRuntime(ItemAlreadyExists)) &&
                userBusinessService.users == old(userBusinessService.users)
              else if userName in userBusinessService.rejected then
                r == Err(FoundationRuntime(FoundationData)) &&
                userBusinessService.users == old(userBusinessService.users)
              else
                r == Ok(u) && userBusinessService.users == old(userBusinessService.users)[userName := u]
    {
      var user := User(userName, password, enableNewlyCreatedUsers, {}, map[]);
      user := user.(groups := user.groups + Elements(groups));
      assert user == NewUser(userName, password, enableNewlyCreatedUsers, groups);
      if mapLdapAttributes && !storeLdapAttributes {
        user := MapLdapAttributes(user);
      }
      var created := userBusinessService.CreateUser(user);
      if created.Fail? {
        return Err(FoundationRuntime(created.error));
      }
      r := Ok(user);
    }

    /**
     * `mapUserFromContext`: translates the authorities (which may create groups),
     * then finds the user and synchronises it, or registers it, and returns the
     * session's user object. `password` stands for the random UUID the source
     * generates on every call.
     */
    method MapUserFromContext(userName: string, authorities: Option<seq<string>>, password: string)
      returns (r: Result<User, Failure>)
      requires Valid()
      modifies userBusinessService, groupBusinessService
      ensures Valid()
      // Groups created during translation stay created, whatever happens next.
      ensures groupBusinessService.groups ==
              Translate(TranslationEnv(), old(groupBusinessService.groups), authorities).groups
      // A failed translation is raised before the user is looked up.
      ensures var t := Translate(TranslationEnv(), old(groupBusinessService.groups), authorities);
              t.result.Err? ==>
                r == Err(t.result.error) && userBusinessService.users == old(userBusinessService.users)
      // A known user: returned as stored, or with its groups overwritten and persisted.
      ensures var t := Translate(TranslationEnv(), old(groupBusinessService.groups), authorities);
              t.result.Ok? && userName in old(userBusinessService.users) ==>
                var u := old(userBusinessService.users)[userName];
                var synced := u.(groups := Elements(t.result.value));
                if onlyPerformAuthentication || !updateLdapGroups then
                  r == Ok(SessionView(u, enableUserForCurrentSession)) &&
                  userBusinessService.users == old(userBusinessService.users)
                else if userBusinessService.readOnly || userName in userBusinessService.rejected then
                  r == Err(ServiceError(UnableToPersistMessage)) &&
                  userBusinessService.users == old(userBusinessService.users)
                else
                  r == Ok(SessionView(synced, enableUserForCurrentSession)) &&
                  userBusinessService.users == old(userBusinessService.users)[userName := synced]
      // An unknown user: rejected, or registered with the translated groups.
      ensures var t := Translate(TranslationEnv(), old(groupBusinessService.groups), authorities);
              t.result.Ok? && userName !in old(userBusinessService.users) ==>
                var u := NewUser(userName, password, enableNewlyCreatedUsers, t.result.value);
                if !autoCreateUsers then
                  r == Err(CredentialsNotFound(NotAllowedMessage)) &&
                  userBusinessService.users == old(userBusinessService.users)
                else if t.result.value == [] then
                  r == Err(ServiceError(NoGroupsMessage)) &&
                  userBusinessService.users == old(userBusinessService.users)
                else if userName in userBusinessService.rejected then
                  r == Err(FoundationRuntime(FoundationData)) &&
                  userBusinessService.users == old(userBusinessService.users)
                else
                  r == Ok(SessionView(u, enableUserForCurrentSession)) &&
                  userBusinessService.users == old(userBusinessService.users)[userName := u]
    {
      var groupsResult := MapLdapAuthoritiesToGroups(authorities);
      if groupsResult.Err? {
        return Err(groupsResult.error);
      }
      var groups := groupsResult.value;

      var user: User;
      var notFound := false;
      var found := userBusinessService.GetUser(userName);
      if found.Err? {
        notFound := true;
      } else {
        user := found.value;
        if !onlyPerformAuthentication {
          if mapLdapAttributes && storeLdapAttributes {
            user := MapLdapAttributes(user);
          }
          if updateLdapGroups {
            user := user.(groups := {});
            user := user.(groups := user.groups + Elements(groups));
            assert user == found.value.(groups := Elements(groups));
            var updated := userBusinessService.UpdateUser(user.username, user);
            if updated.Fail? {
              if updated.error == ItemNotFound {
                // Raised inside the same try block, so it reaches the not-found handler.
                notFound := true;
              } else {
                return Err(ServiceError(UnableToPersistMessage));
              }
            }
          }
        }
      }

      if notFound {
        if autoCreateUsers {
          if |groups| == 0 {
            return Err(ServiceError(NoGroupsMessage));
          }
          var registered := RegisterUser(userName, password, groups);
          if registered.Err? {
            return registered;
          }
          user := registered.value;
        } else {
          return Err(CredentialsNotFound(NotAllowedMessage));
        }
      }

      if mapLdapAttributes && !storeLdapAttributes {
        user := MapLdapAttributes(user);
      }
      if enableUserForCurrentSession {
        user := user.(enabled := true);
      }
      r := Ok(user);
    }

    /** `mapUserToContext`: writing back to the directory is unsupported and always fails. */
    method MapUserToContext(user: User) returns (r: Outcome<Failure>)
      ensures r.Fail? && r.error == IllegalState(WriteBackUnsupportedMessage)
    {
      r := Fail(IllegalState(WriteBackUnsupportedMessage));
    }
  }
}
