/**
 * The database connection factory: one connection per configuration key, created on the first
 * request and handed out from the table afterwards, closed one key at a time or all at once.
 */
module Factory {
  import opened Wrappers

  /** A database configuration: its type and whichever of the two locations it carries. */
  datatype DatabaseConfig = DatabaseConfig(dbType: string, connectionString: Option<string>, filePath: Option<string>)

  /** The two adapters. */
  datatype Connection = NeonAdapter(connectionString: string) | SQLiteAdapter(filePath: string)

  /** A value in a template literal: an absent one prints as "undefined". */
  function Shown(v: Option<string>): string
  {
    if v.Some? then v.value else "undefined"
  }

  /** `getConnectionKey`: "neon:" and the connection string for Neon, "sqlite:" and the file path for any other type. */
  function ConnectionKey(config: DatabaseConfig): string
  {
    if config.dbType == "neon" then "neon:" + Shown(config.connectionString)
    else "sqlite:" + Shown(config.filePath)
  }

  /** The key a connection is created under. */
  function KeyOf(c: Connection): string
  {
    match c
    case NeonAdapter(s) => "neon:" + s
    case SQLiteAdapter(p) => "sqlite:" + p
  }

  /** The connection a configuration asks for, or the error `createConnection` throws. */
  function NewConnection(config: DatabaseConfig): (r: Result<Connection>)
    ensures r.Success? ==> KeyOf(r.value) == ConnectionKey(config)
  {
    if config.dbType == "neon" then
      if config.connectionString.None? || config.connectionString.value == "" then
        Failure("Connection string is required for Neon database")
      else Success(NeonAdapter(config.connectionString.value))
    else if config.dbType == "sqlite" then
      if config.filePath.None? || config.filePath.value == "" then
        Failure("File path is required for SQLite database")
      else Success(SQLiteAdapter(config.filePath.value))
    else Failure("Unsupported database type: " + config.dbType)
  }

  /** A configuration the factory accepts: Neon with a connection string, or SQLite with a file path. */
  predicate Supported(config: DatabaseConfig)
  {
    (config.dbType == "neon" && config.connectionString.Some? && config.connectionString.value != "") ||
    (config.dbType == "sqlite" && config.filePath.Some? && config.filePath.value != "")
  }

  /** A connection is created exactly for a supported configuration, with the location it names. */
  lemma NewConnectionSpec(config: DatabaseConfig)
    ensures NewConnection(config).Success? <==> Supported(config)
    ensures config.dbType == "neon" && Supported(config) ==>
      NewConnection(config) == Success(NeonAdapter(config.connectionString.value))
    ensures config.dbType == "sqlite" && Supported(config) ==>
      NewConnection(config) == Success(SQLiteAdapter(config.filePath.value))
  {
  }

  /** A configuration of an unknown type shares its key with the SQLite configuration of the same file path. */
  lemma UnknownTypeSharesSqliteKey(config: DatabaseConfig)
    requires config.dbType != "neon"
    ensures ConnectionKey(config) == ConnectionKey(DatabaseConfig("sqlite", None, config.filePath))
  {
  }

  /** The table of open connections, by key. */
  class DatabaseFactory {
    var connections: map<string, Connection>
    /** The connections closed so far, in order. */
    var closed: seq<Connection>

    /** Every connection is filed under its own key. */
    predicate Valid()
      reads this
    {
      forall k :: k in connections ==> KeyOf(connections[k]) == k
    }

    constructor ()
      ensures connections == map[] && closed == []
      ensures Valid()
    {
      connections := map[];
      closed := [];
    }

    /**
     * `createConnection`: a connection already filed under the key is returned; otherwise a new
     * one is created and filed, or the error is returned and nothing is filed.
     */
    method CreateConnection(config: DatabaseConfig) returns (r: Result<Connection>)
      requires Valid()
      modifies this
      ensures Valid() && closed == old(closed)
      ensures ConnectionKey(config) in old(connections) ==>
        r == Success(old(connections)[ConnectionKey(config)]) && connections == old(connections)
      ensures ConnectionKey(config) !in old(connections) ==> r == NewConnection(config)
      ensures ConnectionKey(config) !in old(connections) && r.Success? ==>
        connections == old(connections)[ConnectionKey(config) := r.value]
      ensures r.Failure? ==> connections == old(connections)
    {
      var key := ConnectionKey(config);
      if key in connections {
        return Success(connections[key]);
      }
      r := NewConnection(config);
      if r.Success? {
        connections := connections[key := r.value];
      }
    }

    /** `closeConnection`: the connection under the key is closed and removed; an absent key changes nothing. */
    method CloseConnection(config: DatabaseConfig)
      requires Valid()
      modifies this
      ensures ConnectionKey(config) in old(connections) ==>
        closed == old(closed) + [old(connections)[ConnectionKey(config)]] &&
        connections == old(connections) - {ConnectionKey(config)}
      ensures ConnectionKey(config) !in old(connections) ==>
        closed == old(closed) && connections == old(connections)
      ensures Valid()
    {
      var key := ConnectionKey(config);
      if key in connections {
        closed := closed + [connections[key]];
        connections := connections - {key};
      }
    }

    /** `closeAllConnections`: every connection of the table is closed once and the table is emptied. */
    method CloseAllConnections()
      modifies this
      ensures connections == map[] && Valid()
      ensures |closed| == |old(closed)| + |old(connections)| && closed[..|old(closed)|] == old(closed)
      ensures forall k :: k in old(connections) ==> old(connections)[k] in closed[|old(closed)|..]
      ensures forall c :: c in closed[|old(closed)|..] ==> c in old(connections).Values
    {
      var pending := connections;
      ghost var before := closed;
      while pending != map[]
        invariant forall k :: k in pending ==> k in old(connections) && pending[k] == old(connections)[k]
        invariant |closed| + |pending| == |before| + |old(connections)| && closed[..|before|] == before
        invariant forall k :: k in old(connections) ==> k in pending || old(connections)[k] in closed[|before|..]
        invariant forall c :: c in closed[|before|..] ==> c in old(connections).Values
        decreases |pending|
      {
        var k :| k in pending;
        assert |pending - {k}| == |pending| - 1 by {
          assert (pending - {k}).Keys == pending.Keys - {k};
        }
        ghost var prefix := closed;
        closed := closed + [pending[k]];
        assert closed[|before|..] == prefix[|before|..] + [pending[k]];
        pending := pending - {k};
      }
      connections := map[];
    }
  }
}
