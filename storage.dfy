/**
 * The storage configuration of the backend: connection strings built from
 * configuration fields, the production test, and the configuration summary
 * that hides database credentials.
 */
module Storage {
  import opened Basics
  import opened TextOps
  import opened Numerals

  /** The configuration fields the modelled methods read. An unset optional
      setting (`None`) and an empty one are both falsy and are both `""`. */
  datatype Config = Config(
    dbBackend: string,
    dbHost: string,
    dbPort: int,
    dbName: string,
    dbUser: string,
    dbPassword: string,
    dbUrl: string,
    redisEnabled: bool,
    redisHost: string,
    redisPort: int,
    redisPassword: string,
    redisDb: int,
    redisUrl: string,
    s3Enabled: bool,
    s3Bucket: string)

  /** The values used when no environment variable is set. */
  const DefaultConfig: Config := Config(
    "sqlite", "localhost", 5432, "semantis_cache", "semantis", "", "",
    false, "localhost", 6379, "", 0, "",
    false, "semantis-cache-backups")

  const Sqlite: string := "sqlite"
  const Postgresql: string := "postgresql"
  const Mysql: string := "mysql"

  /** `str(n)` (and `{n}` in an f-string) for an integer. */
  function IntDecimal(n: int): (s: string)
    ensures forall i :: 0 <= i < |s| ==> IsDigit(s[i]) || s[i] == '-'
  {
    if n < 0 then "-" + ToBase(-n, 10) else ToBase(n, 10)
  }

  /** `host:port/name`, the part of a server URL after the credentials. */
  function Location(host: string, port: int, path: string): string
  {
    host + ":" + IntDecimal(port) + "/" + path
  }

  /** `StorageConfig.get_db_url`. */
  function DbUrl(c: Config): string
  {
    if c.dbUrl != [] then c.dbUrl
    else if c.dbBackend == Postgresql then
      "postgresql://" + c.dbUser + ":" + c.dbPassword + "@" + Location(c.dbHost, c.dbPort, c.dbName)
    else if c.dbBackend == Mysql then
      "mysql+pymysql://" + c.dbUser + ":" + c.dbPassword + "@" + Location(c.dbHost, c.dbPort, c.dbName)
    else "sqlite:///cache_data/" + c.dbName + ".db"
  }

  /** An explicit `DATABASE_URL` wins whatever the backend. Otherwise the URL
      starts with the scheme of its backend, SQLite's for any unknown backend. A
      server URL is `user:password@` followed by exactly what the summary
      shows, and a SQLite URL is a file under `cache_data/` and has no
      credentials at all. */
  lemma DbUrlForms(c: Config) returns (scheme: string)
    ensures c.dbUrl != [] ==> DbUrl(c) == c.dbUrl
    ensures c.dbUrl == [] ==> |scheme| <= |DbUrl(c)| && DbUrl(c)[..|scheme|] == scheme
    ensures scheme == "postgresql://" <==> c.dbBackend == Postgresql
    ensures scheme == "mysql+pymysql://" <==> c.dbBackend == Mysql
    ensures scheme == "sqlite:///" <==> c.dbBackend != Postgresql && c.dbBackend != Mysql
    ensures c.dbUrl == [] && (c.dbBackend == Postgresql || c.dbBackend == Mysql)
              && '@' !in c.dbHost && '@' !in c.dbName
            ==> DbUrl(c) == scheme + c.dbUser + ":" + c.dbPassword + "@" + SummaryDbUrl(c)
    ensures c.dbUrl == [] && c.dbBackend != Postgresql && c.dbBackend != Mysql && '@' !in c.dbName ==>
      '@' !in DbUrl(c) && DbUrl(c) == scheme + "cache_data/" + c.dbName + ".db"
  {
    scheme := if c.dbBackend == Postgresql then "postgresql://"
              else if c.dbBackend == Mysql then "mysql+pymysql://" else "sqlite:///";
    if c.dbUrl == [] {
      if c.dbBackend == Postgresql || c.dbBackend == Mysql {
        var rest := c.dbUser + ":" + c.dbPassword + "@" + Location(c.dbHost, c.dbPort, c.dbName);
        assert DbUrl(c) == scheme + rest;
        if '@' !in c.dbHost && '@' !in c.dbName {
          SummaryHidesCredentials(c);
        }
      } else {
        var rest := "cache_data/" + c.dbName + ".db";
        assert DbUrl(c) == scheme + rest;
        if '@' !in c.dbName {
          assert '@' !in scheme && '@' !in rest;
        }
      }
    }
  }

  /** `StorageConfig.get_redis_url`: `None` when Redis is neither configured
      by URL nor enabled. */
  function RedisUrl(c: Config): (r: Option<string>)
    ensures r.None? <==> c.redisUrl == [] && !c.redisEnabled
  {
    if c.redisUrl != [] then Some(c.redisUrl)
    else if c.redisEnabled then
      if c.redisPassword != [] then
        Some("redis://:" + c.redisPassword + "@" + Location(c.redisHost, c.redisPort, IntDecimal(c.redisDb)))
      else Some("redis://" + Location(c.redisHost, c.redisPort, IntDecimal(c.redisDb)))
    else None
  }

  /** `host:port/path` has an `@` only if the host or the path has one. */
  lemma LocationWithoutAt(host: string, port: int, path: string)
    requires '@' !in host && '@' !in path
    ensures '@' !in Location(host, port, path)
  {
    var digits := IntDecimal(port);
    assert '@' !in digits by {
      forall i | 0 <= i < |digits| ensures digits[i] != '@' { }
    }
    assert Location(host, port, path) == host + [':'] + digits + ['/'] + path;
  }

  /** The password part `:{password}@` appears only with a non-empty password:
      without one, and with a host free of `@`, the URL has no `@` at all. */
  lemma RedisPasswordOnlyWhenSet(c: Config)
    requires c.redisUrl == [] && c.redisEnabled
    ensures c.redisPassword != [] ==> (RedisUrl(c).value ==
      "redis://:" + c.redisPassword + "@" + Location(c.redisHost, c.redisPort, IntDecimal(c.redisDb)))
    ensures c.redisPassword == [] && '@' !in c.redisHost ==> '@' !in RedisUrl(c).value
  {
    if c.redisPassword == [] && '@' !in c.redisHost {
      var db := IntDecimal(c.redisDb);
      assert '@' !in db by {
        forall i | 0 <= i < |db| ensures db[i] != '@' { }
      }
      LocationWithoutAt(c.redisHost, c.redisPort, db);
    }
  }

  /** `StorageConfig.is_production`. */
  predicate IsProduction(c: Config)
  {
    c.dbBackend != Sqlite || c.redisEnabled || c.s3Enabled
  }

  /** The defaults describe a development set-up on SQLite without Redis. */
  lemma DefaultsAreDevelopment()
    ensures !IsProduction(DefaultConfig)
    ensures DbUrl(DefaultConfig) == "sqlite:///cache_data/semantis_cache.db"
    ensures RedisUrl(DefaultConfig).None?
  {
  }

  /** Outside production the database is SQLite unless `DATABASE_URL` names
      another one, and Redis is reached only through an explicit `REDIS_URL`. */
  lemma DevelopmentUsesSqlite(c: Config)
    requires !IsProduction(c)
    ensures c.dbUrl == [] ==> DbUrl(c) == "sqlite:///cache_data/" + c.dbName + ".db"
    ensures RedisUrl(c).Some? <==> c.redisUrl != []
    ensures RedisUrl(c).Some? ==> RedisUrl(c).value == c.redisUrl
    ensures ConfigSummary(c).s3Bucket.None?
  {
  }

  /** `url.split('@')[-1] if '@' in url else url`: the text after the last `@`
      when there is one, otherwise the whole URL. */
  function AfterLastAt(u: string): (r: string)
    ensures '@' !in r
  {
    if '@' in u then
      var parts := Split(u, '@');
      SplitPartsLackSep(u, '@');
      assert '@' !in parts[|parts| - 1];
      parts[|parts| - 1]
    else u
  }

  /** The `db_url` field of the summary. */
  function SummaryDbUrl(c: Config): (r: string)
    ensures '@' !in r
  {
    AfterLastAt(DbUrl(c))
  }

  /** The part of `StorageConfig.get_config_summary` that depends on the
      modelled fields. */
  datatype Summary = Summary(
    dbBackend: string,
    dbUrl: string,
    redisEnabled: bool,
    redisUrl: Option<string>,
    s3Enabled: bool,
    s3Bucket: Option<string>,
    isProduction: bool)

  function ConfigSummary(c: Config): (s: Summary)
    ensures s.s3Bucket.Some? <==> c.s3Enabled
    ensures s.s3Bucket.Some? ==> s.s3Bucket.value == c.s3Bucket
    ensures '@' !in s.dbUrl
  {
    Summary(c.dbBackend, SummaryDbUrl(c), c.redisEnabled, RedisUrl(c), c.s3Enabled,
            if c.s3Enabled then Some(c.s3Bucket) else None, IsProduction(c))
  }

  /** The summary URL is a suffix of the connection URL; what it drops is empty
      or ends with the last `@` (the credentials). */
  lemma SummaryDbUrlIsSuffix(c: Config) returns (dropped: string)
    ensures DbUrl(c) == dropped + SummaryDbUrl(c)
    ensures dropped == [] || dropped[|dropped| - 1] == '@'
    ensures dropped == [] <==> '@' !in DbUrl(c)
  {
    var u := DbUrl(c);
    if '@' in u {
      var i :| 0 <= i < |u| && u[i] == '@';
      assert u == u[..i] + ['@'] + u[i + 1..];
      SplitAround(u[..i], '@', u[i + 1..]);
      var prefix := SplitLastIsSuffix(u, '@');
      dropped := prefix + ['@'];
    } else {
      dropped := [];
    }
  }

  /** For a server database configured by fields, the summary shows only
      `host:port/name`: user and password are dropped even when the password
      itself contains `@`. */
  lemma SummaryHidesCredentials(c: Config)
    requires c.dbUrl == [] && (c.dbBackend == Postgresql || c.dbBackend == Mysql)
    requires '@' !in c.dbHost && '@' !in c.dbName
    ensures SummaryDbUrl(c) == Location(c.dbHost, c.dbPort, c.dbName)
  {
    var loc := Location(c.dbHost, c.dbPort, c.dbName);
    LocationWithoutAt(c.dbHost, c.dbPort, c.dbName);
    var scheme := if c.dbBackend == Postgresql then "postgresql://" else "mysql+pymysql://";
    var x := scheme + c.dbUser + ":" + c.dbPassword;
    assert DbUrl(c) == x + ['@'] + loc;
    SplitLastPart(x, '@', loc);
  }

  /** Without an `@` (a SQLite URL, say) the summary shows the URL unchanged. */
  lemma SummaryKeepsUrlWithoutAt(c: Config)
    requires '@' !in DbUrl(c)
    ensures SummaryDbUrl(c) == DbUrl(c)
  {
  }

  /** As written, the summary's `redis_url` is the connection URL itself, so a
      Redis password set by fields is shown in full although the database
      password beside it is masked. */
  lemma SummaryShowsRedisPassword(c: Config)
    requires c.redisUrl == [] && c.redisEnabled && c.redisPassword != []
    ensures ConfigSummary(c).redisUrl ==
      Some("redis://:" + c.redisPassword + "@" + Location(c.redisHost, c.redisPort, IntDecimal(c.redisDb)))
    ensures '@' in ConfigSummary(c).redisUrl.value
  {
    RedisPasswordOnlyWhenSet(c);
    var u := ConfigSummary(c).redisUrl.value;
    assert u[|"redis://:" + c.redisPassword|] == '@';
  }

  /** The evidently intended `redis_url` of the summary: masked as `db_url` is,
      keeping what follows the last `@`. */
  function MaskedRedisUrl(c: Config): (r: Option<string>)
    ensures r.Some? <==> RedisUrl(c).Some?
    ensures r.Some? ==> '@' !in r.value
  {
    if RedisUrl(c).Some? then Some(AfterLastAt(RedisUrl(c).value)) else None
  }

  /** With the password set by fields and a host free of `@`, the masked URL
      is `host:port/db`, whatever the password holds; without a password the
      URL has nothing to mask and is shown unchanged. */
  lemma MaskedRedisHidesPassword(c: Config)
    requires c.redisUrl == [] && c.redisEnabled && '@' !in c.redisHost
    ensures c.redisPassword != [] ==>
      MaskedRedisUrl(c) == Some(Location(c.redisHost, c.redisPort, IntDecimal(c.redisDb)))
    ensures c.redisPassword == [] ==> MaskedRedisUrl(c) == RedisUrl(c)
  {
    var db := IntDecimal(c.redisDb);
    assert '@' !in db by {
      forall i | 0 <= i < |db| ensures db[i] != '@' { }
    }
    LocationWithoutAt(c.redisHost, c.redisPort, db);
    var loc := Location(c.redisHost, c.redisPort, db);
    if c.redisPassword != [] {
      var x := "redis://:" + c.redisPassword;
      assert RedisUrl(c).value == x + ['@'] + loc;
      SplitLastPart(x, '@', loc);
    } else {
      RedisPasswordOnlyWhenSet(c);
    }
  }
}
