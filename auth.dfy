/** The account settings that SwiftFileOutputPlugin.getAccount assembles
    before any connection is made, and its choice of authentication method. */
module Auth {
  import opened Exceptions

  datatype AuthenticationMethod = Keystone | TempAuth | Basic

  /** The settings of the plugin task that getAccount reads. */
  datatype Credentials = Credentials(
    authType: string,
    authUrl: string,
    username: string,
    password: string,
    tenantId: Option<string>,
    tenantName: Option<string>)

  /** The joss AccountConfig as getAccount fills it in. */
  datatype AccountConfig = AccountConfig(
    authUrl: string,
    username: string,
    password: string,
    tenantId: Option<string>,
    tenantName: Option<string>,
    authMethod: AuthenticationMethod)

  const MissingTenantMessage := "if you choose keystone auth, you must specify to either tenant_id or tenant_name."
  const UnsupportedAuthTypeMessage := "auth_type has to be either keystone, tempauth or basic."

  /** The configuration of the account, or the ConfigException that rejects
      the settings before any account is created. */
  function ConfigureAccount(c: Credentials): (r: Result<AccountConfig>)
    // keystone needs a tenant, given by id or by name
    ensures (c.authType == "keystone" && c.tenantId.None? && c.tenantName.None?) ==>
              r == Failure(Config(MissingTenantMessage))
    ensures (c.authType == "keystone" && (c.tenantId.Some? || c.tenantName.Some?)) ==>
              r.Success? && r.value.authMethod == Keystone
    ensures c.authType == "tempauth" ==> r.Success? && r.value.authMethod == TempAuth
    ensures c.authType == "basic" ==> r.Success? && r.value.authMethod == Basic
    // every other auth_type is refused
    ensures c.authType !in {"keystone", "tempauth", "basic"} ==>
              r == Failure(Config(UnsupportedAuthTypeMessage))
    // the only failure is a configuration error
    ensures r.Failure? ==> r.error.Config?
    // the credentials reach the account configuration unchanged
    ensures r.Success? ==>
              && r.value.authUrl == c.authUrl
              && r.value.username == c.username
              && r.value.password == c.password
              && r.value.tenantId == c.tenantId
              && r.value.tenantName == c.tenantName
  {
    var base := AccountConfig(c.authUrl, c.username, c.password, c.tenantId, c.tenantName, Basic);
    if c.authType == "keystone" then
      if c.tenantId.None? && c.tenantName.None? then Failure(Config(MissingTenantMessage))
      else Success(base.(authMethod := Keystone))
    else if c.authType == "tempauth" then Success(base.(authMethod := TempAuth))
    else if c.authType == "basic" then Success(base)
    else Failure(Config(UnsupportedAuthTypeMessage))
  }
}
