/** The store's configuration (storage.go, storage_options.go): the
    collaborators it is built with and the two table names, set by
    functional options applied in order over the defaults. */
module Storage {
  import opened Wrappers
  import opened Errors
  import opened Requests

  /** The database collaborator, as seen by one store: whether acquiring a
      connection succeeds. The rows live in a Table passed to each operation. */
  datatype Db = Available | Unavailable(err: Error)

  /** Client.GetClientByID: the client registry. */
  type Resolver = string -> Result<Client, Error>

  datatype PgStorage = PgStorage(
    db: Db,
    client: Resolver,
    tablesPrefix: string,
    migrationTableName: string)

  const DefaultTablesPrefix := "auth_fosite_"
  const DefaultMigrationTableName := "public.auth_fosite_migrations"

  /** The two functional options of the package, as data. */
  datatype StorageOption =
    | WithTablesPrefix(prefix: string)
    | WithMigrationTableName(name: string)

  /** Running one option against a store. */
  function Apply(o: StorageOption, p: PgStorage): (q: PgStorage)
    ensures q.db == p.db && q.client == p.client
    ensures o.WithTablesPrefix? ==>
      q.tablesPrefix == o.prefix && q.migrationTableName == p.migrationTableName
    ensures o.WithMigrationTableName? ==>
      q.migrationTableName == o.name && q.tablesPrefix == p.tablesPrefix
  {
    match o
    case WithTablesPrefix(prefix) => p.(tablesPrefix := prefix)
    case WithMigrationTableName(name) => p.(migrationTableName := name)
  }

  /** Running options left to right: the last option is applied to the
      result of all the ones before it. */
  function ApplyOptions(p: PgStorage, options: seq<StorageOption>): PgStorage
    decreases |options|
  {
    if |options| == 0 then p
    else Apply(options[|options| - 1], ApplyOptions(p, options[..|options| - 1]))
  }

  /** Reference: the prefix named by the last WithTablesPrefix option, or
      `fallback` when there is none. */
  function LastTablesPrefix(options: seq<StorageOption>, fallback: string): string
    decreases |options|
  {
    if |options| == 0 then fallback
    else match options[|options| - 1]
      case WithTablesPrefix(prefix) => prefix
      case _ => LastTablesPrefix(options[..|options| - 1], fallback)
  }

  /** Reference: the name given by the last WithMigrationTableName option,
      or `fallback` when there is none. */
  function LastMigrationTableName(options: seq<StorageOption>, fallback: string): string
    decreases |options|
  {
    if |options| == 0 then fallback
    else match options[|options| - 1]
      case WithMigrationTableName(name) => name
      case _ => LastMigrationTableName(options[..|options| - 1], fallback)
  }

  /** Applying options in order leaves each table name as the last option of
      its kind set it, and touches nothing else. */
  lemma {:induction false} ApplyOptionsLastWins(p: PgStorage, options: seq<StorageOption>)
    ensures ApplyOptions(p, options).db == p.db
    ensures ApplyOptions(p, options).client == p.client
    ensures ApplyOptions(p, options).tablesPrefix == LastTablesPrefix(options, p.tablesPrefix)
    ensures ApplyOptions(p, options).migrationTableName
         == LastMigrationTableName(options, p.migrationTableName)
    decreases |options|
  {
    if |options| > 0 {
      ApplyOptionsLastWins(p, options[..|options| - 1]);
    }
  }

  /** New: defaults first, then the options in order. */
  function New(db: Db, client: Resolver, options: seq<StorageOption>): (p: PgStorage)
    ensures p.db == db && p.client == client
    ensures p.tablesPrefix == LastTablesPrefix(options, DefaultTablesPrefix)
    ensures p.migrationTableName == LastMigrationTableName(options, DefaultMigrationTableName)
    ensures |options| == 0 ==>
      p.tablesPrefix == "auth_fosite_" && p.migrationTableName == "public.auth_fosite_migrations"
  {
    var defaults := PgStorage(db, client, DefaultTablesPrefix, DefaultMigrationTableName);
    ApplyOptionsLastWins(defaults, options);
    ApplyOptions(defaults, options)
  }

  /** Passing the same kind of option twice: the later one wins. */
  lemma SameOptionTwiceLastWins(db: Db, client: Resolver, options: seq<StorageOption>, x: string, y: string)
    ensures New(db, client, options + [WithTablesPrefix(x), WithTablesPrefix(y)]).tablesPrefix == y
    ensures New(db, client, options + [WithMigrationTableName(x), WithMigrationTableName(y)])
              .migrationTableName == y
  {
  }

  /** The two kinds of option commute, and applying both sets both. */
  lemma OptionsCommute(db: Db, client: Resolver, options: seq<StorageOption>, prefix: string, name: string)
    ensures New(db, client, options + [WithTablesPrefix(prefix), WithMigrationTableName(name)]).tablesPrefix
         == New(db, client, options + [WithMigrationTableName(name), WithTablesPrefix(prefix)]).tablesPrefix
         == prefix
    ensures New(db, client, options + [WithTablesPrefix(prefix), WithMigrationTableName(name)]).migrationTableName
         == New(db, client, options + [WithMigrationTableName(name), WithTablesPrefix(prefix)]).migrationTableName
         == name
  {
    var a := options + [WithTablesPrefix(prefix), WithMigrationTableName(name)];
    var b := options + [WithMigrationTableName(name), WithTablesPrefix(prefix)];
    assert a[..|a| - 1] == options + [WithTablesPrefix(prefix)];
    assert b[..|b| - 1] == options + [WithMigrationTableName(name)];
    assert LastTablesPrefix(a, DefaultTablesPrefix)
        == LastTablesPrefix(options + [WithTablesPrefix(prefix)], DefaultTablesPrefix);
    assert LastMigrationTableName(b, DefaultMigrationTableName)
        == LastMigrationTableName(options + [WithMigrationTableName(name)], DefaultMigrationTableName);
  }
}
