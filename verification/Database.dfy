/** The server's database tables: revoked tokens and extended attributes. */
module Database {
  import opened Bytes

  // ---- tokens ----

  /** A decoded token: only the server can issue one, so its fields are what it was issued with. */
  datatype Token = Token(userId: nat, tokenId: string, expiration: int)

  /** The revoked rows, keyed by user and token, with their expiration times. */
  type Revoked = map<(nat, string), int>

  function InsertRevoked(r: Revoked, t: Token): Result<Revoked> {
    if (t.userId, t.tokenId) in r then Err(AlreadyExists) else Ok(r[(t.userId, t.tokenId) := t.expiration])
  }

  /** The cleanup deletes the rows that expire at this very second. */
  function CleanRevoked(r: Revoked, now: int): Revoked {
    map k | k in r && r[k] != now :: r[k]
  }

  predicate IsRevoked(r: Revoked, t: Token) {
    (t.userId, t.tokenId) in r
  }

  /** Expired from its expiration second on, and not valid once revoked. */
  function Verify(r: Revoked, t: Token, now: int): Result<()> {
    if now >= t.expiration then Err(Unauthorized)
    else if IsRevoked(r, t) then Err(Unauthorized)
    else Ok(())
  }

  const LIFETIME := 24 * 60 * 60

  /** A logout passes the authentication first, then its token is revoked. */
  function Logout(r: Revoked, t: Token, now: int): (Revoked, Result<()>) {
    match Verify(r, t, now)
    case Err(e) => (r, Err(e))
    case Ok(_) =>
      match InsertRevoked(r, t)
      case Err(e) => (r, Err(e))
      case Ok(r') => (r', Ok(()))
  }

  // ---- extended attributes ----

  /** The rows keyed by path and attribute name. */
  type XAttrs = map<(string, string), seq<byte>>

  const MARKER := "__tmp_exchange__"

  /** Changing a path in all its rows; a row already at the new key fails the statement. */
  function UpdatePath(x: XAttrs, to: string, from: string): Result<XAttrs> {
    if from == to then Ok(x)
    else if exists k :: k in x && k.0 == from && (to, k.1) in x then Err(AlreadyExists)
    else Ok(MovePath(x, to, from))
  }

  function MovePath(x: XAttrs, to: string, from: string): XAttrs {
    (map k | k in x && k.0 != from :: x[k]) +
    (map k | k in (set j | j in x && j.0 == from :: (to, j.1)) && (from, k.1) in x :: x[(from, k.1)])
  }

  /** The rows that the three updates leave, also when one of them fails. */
  function ExchangeLeaves(x: XAttrs, path1: string, path2: string): XAttrs {
    match UpdatePath(x, MARKER, path1)
    case Err(_) => x
    case Ok(x1) =>
      match UpdatePath(x1, path1, path2)
      case Err(_) => x1
      case Ok(x2) => if UpdatePath(x2, path2, MARKER).Ok? then UpdatePath(x2, path2, MARKER).value else x2
  }

  function ExchangePaths(x: XAttrs, path1: string, path2: string): Result<XAttrs> {
    match UpdatePath(x, MARKER, path1)
    case Err(e) => Err(e)
    case Ok(x1) =>
      match UpdatePath(x1, path1, path2)
      case Err(e) => Err(e)
      case Ok(x2) => UpdatePath(x2, path2, MARKER)
  }

  // ---- the database itself ----

  class DB {
    var revoked: Revoked
    var xattrs: XAttrs

    constructor ()
      ensures revoked == map[] && xattrs == map[]
    {
      revoked, xattrs := map[], map[];
    }

    method InsertRevokedToken(t: Token) returns (r: Result<()>)
      modifies `revoked
      ensures match InsertRevoked(old(revoked), t)
              case Ok(rows) => revoked == rows && r == Ok(())
              case Err(e) => revoked == old(revoked) && r == Err(e)
    {
      if (t.userId, t.tokenId) in revoked {
        return Err(AlreadyExists);
      }
      revoked := revoked[(t.userId, t.tokenId) := t.expiration];
      r := Ok(());
    }

    method CleanRevokedToken(now: int)
      modifies `revoked
      ensures revoked == CleanRevoked(old(revoked), now)
    {
      revoked := map k | k in revoked && revoked[k] != now :: revoked[k];
    }

    method VerifyToken(t: Token, now: int) returns (r: Result<()>)
      ensures r == Verify(revoked, t, now)
    {
      var isExpired := now >= t.expiration;
      if isExpired {
        return Err(Unauthorized);
      }
      var isRevoked := IsRevoked(revoked, t);
      if isRevoked {
        return Err(Unauthorized);
      }
      r := Ok(());
    }

    /** A login issues a token for a day and then cleans up. */
    method Login(userId: nat, tokenId: string, now: int) returns (t: Token)
      modifies `revoked
      ensures t == Token(userId, tokenId, now + LIFETIME)
      ensures revoked == CleanRevoked(old(revoked), now)
    {
      t := Token(userId, tokenId, now + LIFETIME);
      CleanRevokedToken(now);
    }

    method UpdatePathRows(to: string, from: string) returns (r: Result<()>)
      modifies `xattrs
      ensures match UpdatePath(old(xattrs), to, from)
              case Ok(rows) => xattrs == rows && r == Ok(())
              case Err(e) => xattrs == old(xattrs) && r == Err(e)
    {
      match UpdatePath(xattrs, to, from)
      case Ok(rows) =>
        xattrs := rows;
        r := Ok(());
      case Err(e) =>
        r := Err(e);
    }

    /** Three updates one after the other; the first that fails ends it. */
    method ExchangeXAttributes(path1: string, path2: string) returns (r: Result<()>)
      modifies `xattrs
      ensures match ExchangePaths(old(xattrs), path1, path2)
              case Ok(rows) => xattrs == rows && r == Ok(())
              case Err(e) => xattrs == ExchangeLeaves(old(xattrs), path1, path2) && r == Err(e)
    {
      r := UpdatePathRows(MARKER, path1);
      if r.Err? {
        return;
      }
      r := UpdatePathRows(path1, path2);
      if r.Err? {
        return;
      }
      r := UpdatePathRows(path2, MARKER);
    }
  }
}
