/** `get_database`: selecting a database on a connection, authenticating
    first when credentials are given. The connection is an opaque value;
    `connection[name]` is recorded as a handle and `authenticate` as the
    call that would be made, never run. */
module Database {
  import opened Values

  /** `connection[name]`: the database called `name` on `connection`. */
  datatype DatabaseHandle<C> = DatabaseHandle(connection: C, name: string)

  /** `auth_db.authenticate(username, password)`. */
  datatype AuthCall<C> = Authenticate(database: DatabaseHandle<C>, username: string, password: string)

  /** What a successful `get_database` does: at most one authenticate call,
      then the database it returns. */
  datatype Selection<C> = Selection(auth: Option<AuthCall<C>>, database: DatabaseHandle<C>)

  /** The error `get_database` raises: "Missing username or password". */
  datatype DatabaseError = MissingUsernameOrPassword

  /** Authorisation is asked for as soon as any of the three credential
      arguments is truthy: it is off only when each is `None` or empty, and
      a login always turns it on. */
  predicate AuthorizationEnabled(username: Option<string>, password: Option<string>, authdb: Option<string>)
    ensures !AuthorizationEnabled(username, password, authdb) <==>
      && (username == None || username == Some([]))
      && (password == None || password == Some([]))
      && (authdb == None || authdb == Some([]))
    ensures HasLogin(username, password) ==> AuthorizationEnabled(username, password, authdb)
  {
    Truthy(username) || Truthy(password) || Truthy(authdb)
  }

  /** Both halves of a login are truthy: both are given and neither is
      empty. */
  predicate HasLogin(username: Option<string>, password: Option<string>)
    ensures HasLogin(username, password) <==>
      username.Some? && password.Some? && username.value != [] && password.value != []
  {
    Truthy(username) && Truthy(password)
  }

  /** The database authenticated against: `authdb` unless it is `None`; an
      empty `authdb` is kept, as the test is `is None` and not truthiness. */
  function AuthDbName(dbName: string, authdb: Option<string>): (name: string)
    ensures authdb.None? ==> name == dbName
    ensures authdb.Some? ==> name == authdb.value
  {
    match authdb
    case None => dbName
    case Some(a) => a
  }

  /** `get_database`. */
  function GetDatabase<C>(connection: C, dbName: string, username: Option<string>,
                          password: Option<string>, authdb: Option<string>): (r: Result<Selection<C>, DatabaseError>)
    ensures r.Err? <==> AuthorizationEnabled(username, password, authdb) && !HasLogin(username, password)
    ensures r.Ok? ==> r.value.database == DatabaseHandle(connection, dbName)
    ensures r.Ok? ==> (r.value.auth.Some? <==> HasLogin(username, password))
    ensures r.Ok? && r.value.auth.Some? ==>
      r.value.auth.value == Authenticate(DatabaseHandle(connection, AuthDbName(dbName, authdb)),
                                         username.value, password.value)
  {
    if AuthorizationEnabled(username, password, authdb) then
      var authDbName := AuthDbName(dbName, authdb);
      if HasLogin(username, password) then
        var auth := Authenticate(DatabaseHandle(connection, authDbName), username.value, password.value);
        Ok(Selection(Some(auth), DatabaseHandle(connection, dbName)))
      else
        Err(MissingUsernameOrPassword)
    else
      Ok(Selection(None, DatabaseHandle(connection, dbName)))
  }

  /** With every credential argument falsy (absent or empty) nothing is
      authenticated and the named database is returned. */
  lemma NoCredentialsNoAuth<C>(connection: C, dbName: string, username: Option<string>,
                               password: Option<string>, authdb: Option<string>)
    requires !Truthy(username) && !Truthy(password) && !Truthy(authdb)
    ensures GetDatabase(connection, dbName, username, password, authdb)
         == Ok(Selection(None, DatabaseHandle(connection, dbName)))
  {
  }

  /** Giving only an authentication database, without a login, is refused. */
  lemma AuthdbAloneRefused<C>(connection: C, dbName: string, authdb: string)
    requires authdb != []
    ensures GetDatabase(connection, dbName, None, None, Some(authdb)) == Err(MissingUsernameOrPassword)
  {
  }

  /** Half a login is refused, whatever the other arguments. */
  lemma HalfLoginRefused<C>(connection: C, dbName: string, username: Option<string>,
                            password: Option<string>, authdb: Option<string>)
    requires Truthy(username) != Truthy(password)
    ensures GetDatabase(connection, dbName, username, password, authdb) == Err(MissingUsernameOrPassword)
  {
  }

  /** The returned database never depends on the credentials: any two
      successful selections of the same name return the same handle. */
  lemma HandleIgnoresCredentials<C>(connection: C, dbName: string,
                                    u1: Option<string>, p1: Option<string>, a1: Option<string>,
                                    u2: Option<string>, p2: Option<string>, a2: Option<string>)
    requires GetDatabase(connection, dbName, u1, p1, a1).Ok?
    requires GetDatabase(connection, dbName, u2, p2, a2).Ok?
    ensures GetDatabase(connection, dbName, u1, p1, a1).value.database
         == GetDatabase(connection, dbName, u2, p2, a2).value.database
  {
  }

  /** With a login given, `authdb` changes nothing but the database the one
      authenticate call is made against. */
  lemma AuthdbOnlyRetargets<C>(connection: C, dbName: string, username: string, password: string,
                               a1: Option<string>, a2: Option<string>)
    requires username != [] && password != []
    ensures var r1 := GetDatabase(connection, dbName, Some(username), Some(password), a1);
            var r2 := GetDatabase(connection, dbName, Some(username), Some(password), a2);
      && r1.Ok? && r2.Ok?
      && r1.value.database == r2.value.database
      && r1.value.auth.Some? && r2.value.auth.Some?
      && r1.value.auth.value.username == r2.value.auth.value.username
      && r1.value.auth.value.password == r2.value.auth.value.password
      && (r1.value.auth.value.database == r2.value.auth.value.database <==> AuthDbName(dbName, a1) == AuthDbName(dbName, a2))
  {
  }

  /** An empty but present `authdb` is still the authentication target:
      only `None` falls back to the selected database. */
  lemma EmptyAuthdbIsTarget<C>(connection: C, dbName: string, username: string, password: string)
    requires username != [] && password != [] && dbName != []
    ensures var r := GetDatabase(connection, dbName, Some(username), Some(password), Some([]));
      && r.Ok? && r.value.auth.Some?
      && r.value.auth.value.database.name == []
      && r.value.auth.value.database.name != r.value.database.name
  {
  }

  /** `get_database(connection, 'mydb', username='admin', password='secret')`
      authenticates against `mydb` itself. */
  lemma LoginExample<C>(connection: C)
    ensures GetDatabase(connection, "mydb", Some("admin"), Some("secret"), None)
         == Ok(Selection(Some(Authenticate(DatabaseHandle(connection, "mydb"), "admin", "secret")),
                         DatabaseHandle(connection, "mydb")))
  {
  }

  /** `get_database(connection, 'mydb', username='admin', password='secret',
      authdb='admin')` authenticates against `admin` and returns `mydb`. */
  lemma AuthdbExample<C>(connection: C)
    ensures GetDatabase(connection, "mydb", Some("admin"), Some("secret"), Some("admin"))
         == Ok(Selection(Some(Authenticate(DatabaseHandle(connection, "admin"), "admin", "secret")),
                         DatabaseHandle(connection, "mydb")))
  {
  }

  /** A username without a password is refused. */
  lemma MissingPasswordExample<C>(connection: C)
    ensures GetDatabase(connection, "mydb", Some("admin"), None, None) == Err(MissingUsernameOrPassword)
  {
  }
}
