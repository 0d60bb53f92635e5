/** The token ledger: the `Token` entity, the `TokenRepository` queries and update,
    and `TokenService.revokeToken`. */
module Tokens {
  import opened Common

  /** One ledger record. `usuario` is the owning user's id; times are in milliseconds. */
  datatype Token = Token(
    id: nat,
    token: string,
    revoked: bool,
    expired: bool,
    usuario: nat,
    createdAt: int,
    expiresAt: int)

  /** The table's constraints: primary key and the unique `token` column. */
  ghost predicate UniqueTokens(rows: seq<Token>)
  {
    forall i, j | 0 <= i < |rows| && 0 <= j < |rows| && i != j ::
      rows[i].id != rows[j].id && rows[i].token != rows[j].token
  }

  /** `findByToken`. */
  function FindByToken(rows: seq<Token>, s: string): (r: Option<Token>)
    ensures r.Some? ==> r.value in rows && r.value.token == s
    ensures r.None? ==> forall j | 0 <= j < |rows| :: rows[j].token != s
  {
    FindWhere(rows, (t: Token) => t.token == s)
  }

  /** With unique token strings, the lookup yields the one record holding that string. */
  lemma TokenLookupIsExact(rows: seq<Token>, i: nat)
    requires UniqueTokens(rows) && i < |rows|
    ensures FindByToken(rows, rows[i].token) == Some(rows[i])
  {
    FindFirstIsUnique(rows, (t: Token) => t.token == rows[i].token, i);
  }

  /** `findAllByUsuarioAndExpiredFalseAndRevokedFalse`. */
  function ActiveTokensOf(rows: seq<Token>, usuario: nat): (r: seq<Token>)
    ensures forall t :: t in r <==> t in rows && t.usuario == usuario && !t.expired && !t.revoked
    ensures forall t :: multiset(r)[t] == if t.usuario == usuario && !t.expired && !t.revoked then multiset(rows)[t] else 0
  {
    Filter(rows, (t: Token) => t.usuario == usuario && !t.expired && !t.revoked)
  }

  /** The ledger after `UPDATE Token t SET t.revoked = true WHERE t.token = ?1`. */
  function Revoked(rows: seq<Token>, s: string): seq<Token>
  {
    seq(|rows|, i requires 0 <= i < |rows| =>
      if rows[i].token == s then rows[i].(revoked := true) else rows[i])
  }

  /** The number of rows the `WHERE t.token = ?1` clause matches. */
  function MatchCount(rows: seq<Token>, s: string): nat
  {
    if |rows| == 0 then 0
    else MatchCount(rows[..|rows| - 1], s) + (if rows[|rows| - 1].token == s then 1 else 0)
  }

  lemma {:induction false} MatchCountZero(rows: seq<Token>, s: string)
    ensures MatchCount(rows, s) == 0 <==> forall j | 0 <= j < |rows| :: rows[j].token != s
  {
    if |rows| > 0 {
      var init := rows[..|rows| - 1];
      MatchCountZero(init, s);
      assert forall j | 0 <= j < |init| :: init[j] == rows[j];
    }
  }

  /** The bulk update reports 1 for a stored token and 0 for an unknown one. */
  lemma {:induction false} MatchCountIsLookup(rows: seq<Token>, s: string)
    requires UniqueTokens(rows)
    ensures MatchCount(rows, s) == (if FindByToken(rows, s).Some? then 1 else 0)
  {
    if |rows| > 0 {
      var init := rows[..|rows| - 1];
      assert forall j | 0 <= j < |init| :: init[j] == rows[j];
      assert UniqueTokens(init);
      MatchCountIsLookup(init, s);
      if rows[|rows| - 1].token == s {
        assert forall j | 0 <= j < |init| :: init[j].token != s;
        MatchCountZero(init, s);
      } else if FindByToken(rows, s).Some? {
        assert FindByToken(init, s).Some?;
      }
    }
  }

  /** Revocation keeps every id and token string, so the table's constraints still hold. */
  lemma RevokedKeepsConstraints(rows: seq<Token>, s: string)
    requires UniqueTokens(rows)
    ensures |Revoked(rows, s)| == |rows|
    ensures UniqueTokens(Revoked(rows, s))
    ensures forall j | 0 <= j < |rows| :: Revoked(rows, s)[j].id == rows[j].id
  {
  }

  /** Revocation changes only the `revoked` column, and only on rows holding `s`:
      `expired`, `expiresAt`, `createdAt`, the owner and every other row are unchanged. */
  lemma RevokedChangesOnlyRevokedFlag(rows: seq<Token>, s: string, j: nat)
    requires j < |rows|
    ensures |Revoked(rows, s)| == |rows|
    ensures Revoked(rows, s)[j].(revoked := rows[j].revoked) == rows[j]
    ensures rows[j].token != s ==> Revoked(rows, s)[j] == rows[j]
    ensures rows[j].token == s ==> Revoked(rows, s)[j].revoked
  {
  }

  /** Revoking twice leaves the same ledger as revoking once. */
  lemma RevokeIsIdempotent(rows: seq<Token>, s: string)
    ensures Revoked(Revoked(rows, s), s) == Revoked(rows, s)
  {
  }

  /** After revocation a lookup of the string finds that same record with `revoked` set;
      an unknown string leaves the ledger as it was. */
  lemma RevokeThenFind(rows: seq<Token>, s: string)
    requires UniqueTokens(rows)
    ensures FindByToken(rows, s).None? ==> Revoked(rows, s) == rows
    ensures FindByToken(rows, s).Some? ==>
      FindByToken(Revoked(rows, s), s) == Some(FindByToken(rows, s).value.(revoked := true))
  {
    match FindByToken(rows, s)
    case None =>
    case Some(t) =>
      var k := FindFirst(rows, (t: Token) => t.token == s).value;
      RevokedKeepsConstraints(rows, s);
      TokenLookupIsExact(Revoked(rows, s), k);
  }

  /** Setting `revoked` on the one record holding a string is the bulk update on that string. */
  lemma RevokeOneIsRevokeAll(rows: seq<Token>, k: nat)
    requires UniqueTokens(rows) && k < |rows|
    ensures rows[k := rows[k].(revoked := true)] == Revoked(rows, rows[k].token)
  {
  }

  /** The position of the record with primary key `id`. */
  function IndexOfToken(rows: seq<Token>, id: nat): (k: nat)
    requires exists j | 0 <= j < |rows| :: rows[j].id == id
    ensures k < |rows| && rows[k].id == id
  {
    FindFirst(rows, (t: Token) => t.id == id).value
  }

  /** The ledger table. */
  class TokenRepository {
    var rows: seq<Token>
    var nextId: nat

    ghost predicate Valid()
      reads this
    {
      UniqueTokens(rows) && forall j | 0 <= j < |rows| :: rows[j].id < nextId
    }

    constructor ()
      ensures Valid() && rows == [] && nextId == 0
    {
      rows := [];
      nextId := 0;
    }

    /** `save` of a new record: it gets the next id, and the `@PrePersist` hook
        overwrites `createdAt` with the clock at persist time. A token string
        already in the ledger violates the unique column and nothing is stored. */
    method Save(t: Token, persistNow: int) returns (r: Result<Token>)
      requires Valid()
      modifies this
      ensures Valid()
      ensures FindByToken(old(rows), t.token).Some? ==>
        r.Err? && r.exc.DataIntegrityViolation? && rows == old(rows) && nextId == old(nextId)
      ensures FindByToken(old(rows), t.token).None? ==>
        r == Ok(t.(id := old(nextId), createdAt := persistNow)) &&
        rows == old(rows) + [r.value] && nextId == old(nextId) + 1
    {
      if FindByToken(rows, t.token).Some? {
        r := Err(DataIntegrityViolation("duplicate key value violates unique constraint"));
      } else {
        var row := t.(id := nextId, createdAt := persistNow);
        rows := rows + [row];
        nextId := nextId + 1;
        r := Ok(row);
      }
    }

    /** `save` of a record loaded from the ledger and changed through its setters,
        keeping its token string. */
    method Update(t: Token)
      requires Valid()
      requires exists j | 0 <= j < |rows| :: rows[j].id == t.id && rows[j].token == t.token
      modifies this
      ensures Valid() && nextId == old(nextId)
      ensures rows == old(rows)[IndexOfToken(old(rows), t.id) := t]
    {
      var k := IndexOfToken(rows, t.id);
      rows := rows[k := t];
    }

    /** `revokeToken`: the bulk `UPDATE ... SET revoked = true WHERE token = ?1`,
        returning the number of rows it matched. */
    method RevokeToken(s: string) returns (n: nat)
      requires Valid()
      modifies this
      ensures Valid() && nextId == old(nextId)
      ensures rows == Revoked(old(rows), s)
      ensures n == MatchCount(old(rows), s)
    {
      ghost var before := rows;
      var i := 0;
      n := 0;
      while i < |rows|
        invariant 0 <= i <= |rows| == |before|
        invariant forall j | 0 <= j < i :: rows[j] == Revoked(before, s)[j]
        invariant forall j | i <= j < |rows| :: rows[j] == before[j]
        invariant n == MatchCount(before[..i], s)
        invariant nextId == old(nextId)
      {
        assert before[..i + 1][..i] == before[..i];
        if rows[i].token == s {
          rows := rows[i := rows[i].(revoked := true)];
          n := n + 1;
        }
        i := i + 1;
      }
      assert before[..i] == before;
      RevokedKeepsConstraints(before, s);
    }
  }

  /** `TokenService`: revocation through a lookup and a save of the record found. */
  class TokenService {
    const tokenRepository: TokenRepository

    constructor (tokenRepository: TokenRepository)
      ensures this.tokenRepository == tokenRepository
    {
      this.tokenRepository := tokenRepository;
    }

    /** `revokeToken`: if a record holds `s` its `revoked` flag is set; an unknown
        string is a silent no-op. The ledger ends exactly as the bulk update leaves it. */
    method RevokeToken(s: string)
      requires tokenRepository.Valid()
      modifies tokenRepository
      ensures tokenRepository.Valid() && tokenRepository.nextId == old(tokenRepository.nextId)
      ensures tokenRepository.rows == Revoked(old(tokenRepository.rows), s)
    {
      var found := FindByToken(tokenRepository.rows, s);
      match found {
        case None =>
          RevokeThenFind(tokenRepository.rows, s);
        case Some(t) =>
          ghost var k := FindFirst(tokenRepository.rows, (t: Token) => t.token == s).value;
          RevokeOneIsRevokeAll(tokenRepository.rows, k);
          assert IndexOfToken(tokenRepository.rows, t.id) == k;
          tokenRepository.Update(t.(revoked := true));
      }
    }
  }
}
