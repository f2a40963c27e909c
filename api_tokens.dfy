/** The `api_tokens` table: one row per issued token, looked up by its
    public `token_id`. The model gives the table no uniqueness constraint
    of its own: `Save` appends whatever row it is given, and distinct
    `token_id`s are an invariant that the command that inserts rows must
    keep. */
module ApiTokens {

  /** One row. The plaintext secret has no column: only its hash is kept. */
  datatype ApiToken = ApiToken(
    name: string,
    tokenId: string,
    secretHash: string,
    userId: nat,
    expiresAt: string)

  /** Some row carries `tokenId` (the `where token_id = ? exists` query). */
  predicate HasTokenId(rows: seq<ApiToken>, tokenId: string) {
    exists i :: 0 <= i < |rows| && rows[i].tokenId == tokenId
  }

  /** No two rows share a `token_id`. */
  predicate UniqueTokenIds(rows: seq<ApiToken>) {
    forall i, j :: 0 <= i < j < |rows| ==> rows[i].tokenId != rows[j].tokenId
  }

  /** Appending a row keeps the identifiers distinct exactly when its
      identifier is new. */
  lemma AppendKeepsUnique(rows: seq<ApiToken>, token: ApiToken)
    ensures UniqueTokenIds(rows + [token]) <==> UniqueTokenIds(rows) && !HasTokenId(rows, token.tokenId)
  {
    var all := rows + [token];
    if UniqueTokenIds(all) {
      forall i | 0 <= i < |rows| ensures rows[i].tokenId != token.tokenId {
        assert all[i] == rows[i] && all[|rows|] == token;
      }
      forall i, j | 0 <= i < j < |rows| ensures rows[i].tokenId != rows[j].tokenId {
        assert all[i] == rows[i] && all[j] == rows[j];
      }
    }
    if UniqueTokenIds(rows) && !HasTokenId(rows, token.tokenId) {
      forall i, j | 0 <= i < j < |all| ensures all[i].tokenId != all[j].tokenId {
        if j < |rows| {
          assert all[i] == rows[i] && all[j] == rows[j];
        } else {
          assert all[i] == rows[i] && all[j] == token;
        }
      }
    }
  }

  class TokenStore {
    var rows: seq<ApiToken>

    ghost predicate Valid()
      reads this
    {
      UniqueTokenIds(rows)
    }

    constructor ()
      ensures rows == [] && Valid()
    {
      rows := [];
    }

    /** Whether a row with this `token_id` exists: a scan of the rows. */
    method Exists(tokenId: string) returns (found: bool)
      ensures found <==> HasTokenId(rows, tokenId)
    {
      var i := 0;
      while i < |rows|
        invariant 0 <= i <= |rows|
        invariant forall j :: 0 <= j < i ==> rows[j].tokenId != tokenId
      {
        if rows[i].tokenId == tokenId {
          return true;
        }
        i := i + 1;
      }
      return false;
    }

    /** Insert one row; nothing else in the table changes. */
    method Save(token: ApiToken)
      modifies this
      ensures rows == old(rows) + [token]
    {
      rows := rows + [token];
    }
  }
}
