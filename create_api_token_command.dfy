/** The `bookstack:create-api-token` console command: issue one API token
    for a user. The framework collaborators are parameters:
    - the user lookup arrives as its result (`UserLookup`);
    - the successive values of `Str::random(32)` arrive as the sequence
      `randoms`: the secret is drawn first, then the first token id, then
      one more id per collision;
    - `Hash::make` is the function `hash`;
    - `ApiToken::defaultExpiry()` is the string `defaultExpiry`.
    `Issue` states what one run does; `Handle` is the step-by-step command
    over the mutable table, proved to agree with it. */
module CreateApiTokenCommand {
  import opened Optional
  import opened YmdDate
  import opened TokenValidation
  import opened ApiTokens

  /** Exit codes of a console command. */
  const SUCCESS := 0
  const FAILURE := 1

  /** Length of every `Str::random` value the command asks for. */
  const RandomLength := 32

  predicate IsAlphaNum(c: char) {
    'a' <= c <= 'z' || 'A' <= c <= 'Z' || '0' <= c <= '9'
  }

  /** What `Str::random(32)` promises: 32 letters and digits. */
  predicate IsRandomString(s: string) {
    |s| == RandomLength && forall i :: 0 <= i < |s| ==> IsAlphaNum(s[i])
  }

  predicate AllRandomStrings(randoms: seq<string>) {
    forall i :: 0 <= i < |randoms| ==> IsRandomString(randoms[i])
  }

  datatype User = User(id: nat, email: string)

  /** The result of resolving `--id` or `--email` to exactly one user. */
  datatype UserLookup = Found(user: User) | NotFound(message: string)

  /** What the command reports. */
  datatype Outcome =
    | UserNotFound(message: string)
    | Invalid(errors: seq<FieldError>)
    | Created(tokenId: string, secret: string)
  {
    function ExitCode(): (code: int) {
      if Created? then SUCCESS else FAILURE
    }
  }

  /** Some candidate id at or after `from` is not in the table yet. */
  predicate HasFreeCandidate(rows: seq<ApiToken>, randoms: seq<string>, from: nat) {
    exists k :: from <= k < |randoms| && !HasTokenId(rows, randoms[k])
  }

  /** What the environment must supply: generator output of the promised
      form and, when the run gets as far as the collision loop, a
      candidate id that ends it. */
  predicate CanRun(rows: seq<ApiToken>, lookup: UserLookup, name: Option<string>,
                   expires: Option<string>, randoms: seq<string>)
  {
    AllRandomStrings(randoms)
    && (lookup.Found? && Validate(name, expires) == [] ==> HasFreeCandidate(rows, randoms, 1))
  }

  /** The index of the id the collision loop settles on when it starts at
      candidate `from`: the first candidate not already in the table. */
  function FirstFreeCandidate(rows: seq<ApiToken>, randoms: seq<string>, from: nat): (k: nat)
    requires HasFreeCandidate(rows, randoms, from)
    ensures from <= k < |randoms| && !HasTokenId(rows, randoms[k])
    ensures forall i :: from <= i < k ==> HasTokenId(rows, randoms[i])
    decreases |randoms| - from
  {
    if !HasTokenId(rows, randoms[from]) then from
    else FirstFreeCandidate(rows, randoms, from + 1)
  }

  /** The record assembled before the collision loop, with its first id. */
  function Assemble(name: string, tokenId: string, secret: string, user: User,
                    expiresAt: string, hash: string -> string): (token: ApiToken)
    ensures token.secretHash == hash(secret) && token.tokenId == tokenId
    ensures token.name == name && token.userId == user.id && token.expiresAt == expiresAt
  {
    ApiToken(name, tokenId, hash(secret), user.id, expiresAt)
  }

  /** Only the hash of the secret reaches the record: two secrets with the
      same hash give the same record, so nothing else of the plaintext is
      stored. */
  lemma AssembleStoresOnlyTheHash(name: string, tokenId: string, secret1: string, secret2: string,
                                  user: User, expiresAt: string, hash: string -> string)
    requires hash(secret1) == hash(secret2)
    ensures Assemble(name, tokenId, secret1, user, expiresAt, hash)
            == Assemble(name, tokenId, secret2, user, expiresAt, hash)
  {
  }

  /** The expiry line 68 settles on: the validated value if one was given. */
  function ResolveExpiry(expires: Option<string>, defaultExpiry: string): (expiresAt: string)
    ensures expires.None? ==> expiresAt == defaultExpiry
    ensures expires.Some? ==> expiresAt == expires.value
    ensures ExpiresValid(expires) ==> expiresAt == defaultExpiry || IsBlank(expiresAt) || ValidYmd(expiresAt)
  {
    if expires.Some? then expires.value else defaultExpiry
  }

  /** One run of the command: what it reports and the table afterwards. */
  function Issue(rows: seq<ApiToken>, lookup: UserLookup, name: Option<string>,
                 expires: Option<string>, randoms: seq<string>,
                 hash: string -> string, defaultExpiry: string): (r: (seq<ApiToken>, Outcome))
    requires CanRun(rows, lookup, name, expires, randoms)
    ensures r.1.ExitCode() == FAILURE ==> r.0 == rows
    ensures r.1.Created? ==> |r.0| == |rows| + 1 && r.0[..|rows|] == rows
                             && r.0[|rows|].tokenId == r.1.tokenId
                             && !HasTokenId(rows, r.1.tokenId)
                             && r.0[|rows|].secretHash == hash(r.1.secret)
  {
    match lookup
    case NotFound(message) => (rows, UserNotFound(message))
    case Found(user) =>
      var errors := Validate(name, expires);
      if errors != [] then (rows, Invalid(errors))
      else
        var secret := randoms[0];
        var k := FirstFreeCandidate(rows, randoms, 1);
        var token := Assemble(name.value, randoms[k], secret, user,
                              ResolveExpiry(expires, defaultExpiry), hash);
        (rows + [token], Created(token.tokenId, secret))
  }

  /** `handle()`: resolve the user, validate, assemble the record, draw
      new ids while the current one is taken, save once. */
  method Handle(store: TokenStore, lookup: UserLookup, name: Option<string>,
                expires: Option<string>, randoms: seq<string>,
                hash: string -> string, defaultExpiry: string) returns (outcome: Outcome)
    requires CanRun(store.rows, lookup, name, expires, randoms)
    modifies store
    ensures (store.rows, outcome) == Issue(old(store.rows), lookup, name, expires, randoms, hash, defaultExpiry)
    ensures old(store.Valid()) ==> store.Valid()
  {
    var user: User;
    match lookup {
      case NotFound(message) =>
        return UserNotFound(message);
      case Found(u) =>
        user := u;
    }

    var errors := Validate(name, expires);
    if errors != [] {
      return Invalid(errors);
    }

    var expiresAt := ResolveExpiry(expires, defaultExpiry);
    var secret := randoms[0];
    var token := Assemble(name.value, randoms[1], secret, user, expiresAt, hash);

    ghost var rows := store.rows;
    ghost var k := FirstFreeCandidate(rows, randoms, 1);
    var drawn := 1;  // index in `randoms` of the current token id
    var taken := store.Exists(token.tokenId);
    while taken
      invariant 1 <= drawn <= k
      invariant store.rows == rows
      invariant taken == HasTokenId(rows, token.tokenId)
      invariant token == Assemble(name.value, randoms[drawn], secret, user, expiresAt, hash)
      decreases k - drawn
    {
      drawn := drawn + 1;
      token := token.(tokenId := randoms[drawn]);
      taken := store.Exists(token.tokenId);
    }
    assert drawn == k;

    AppendKeepsUnique(store.rows, token);
    store.Save(token);
    return Created(token.tokenId, secret);
  }

  /** A failed user lookup ends the run before anything else is looked at:
      whatever the name and expiry, the table is unchanged. */
  lemma UserLookupFailureChangesNothing(rows: seq<ApiToken>, message: string, name: Option<string>,
                                        expires: Option<string>, randoms: seq<string>,
                                        hash: string -> string, defaultExpiry: string)
    requires CanRun(rows, NotFound(message), name, expires, randoms)
    ensures Issue(rows, NotFound(message), name, expires, randoms, hash, defaultExpiry)
            == (rows, UserNotFound(message))
  {
  }

  /** Validation gates every effect: with any rule failing, the command
      fails, reports every failure, and the table is unchanged. */
  lemma InvalidInputChangesNothing(rows: seq<ApiToken>, user: User, name: Option<string>,
                                   expires: Option<string>, randoms: seq<string>,
                                   hash: string -> string, defaultExpiry: string)
    requires CanRun(rows, Found(user), name, expires, randoms)
    requires !NameValid(name) || !ExpiresValid(expires)
    ensures var (rows', outcome) := Issue(rows, Found(user), name, expires, randoms, hash, defaultExpiry);
      rows' == rows && outcome == Invalid(Validate(name, expires)) && outcome.ExitCode() == FAILURE
  {
  }

  /** The command succeeds exactly when the user is found and both inputs
      pass validation, and the table changes exactly when it succeeds. */
  lemma SucceedsIffAccepted(rows: seq<ApiToken>, lookup: UserLookup, name: Option<string>,
                            expires: Option<string>, randoms: seq<string>,
                            hash: string -> string, defaultExpiry: string)
    requires CanRun(rows, lookup, name, expires, randoms)
    ensures var (rows', outcome) := Issue(rows, lookup, name, expires, randoms, hash, defaultExpiry);
      (outcome.ExitCode() == SUCCESS <==> lookup.Found? && NameValid(name) && ExpiresValid(expires))
      && (rows' == rows <==> outcome.ExitCode() == FAILURE)
  {
  }

  /** On success exactly one row is added, every earlier row is kept as it
      was, and the new `token_id` was not in the table before. */
  lemma SuccessAddsOneFreshRow(rows: seq<ApiToken>, user: User, name: Option<string>,
                               expires: Option<string>, randoms: seq<string>,
                               hash: string -> string, defaultExpiry: string)
    requires CanRun(rows, Found(user), name, expires, randoms)
    requires NameValid(name) && ExpiresValid(expires)
    ensures var (rows', outcome) := Issue(rows, Found(user), name, expires, randoms, hash, defaultExpiry);
      |rows'| == |rows| + 1 && rows'[..|rows|] == rows
      && !HasTokenId(rows, rows'[|rows|].tokenId)
      && outcome == Created(rows'[|rows|].tokenId, randoms[0])
  {
  }

  /** The saved row: the validated name, the resolved user, the hash of the
      secret that is printed, and an id and a secret of 32 letters and
      digits. */
  lemma SavedRowFields(rows: seq<ApiToken>, user: User, name: Option<string>,
                       expires: Option<string>, randoms: seq<string>,
                       hash: string -> string, defaultExpiry: string)
    requires CanRun(rows, Found(user), name, expires, randoms)
    requires NameValid(name) && ExpiresValid(expires)
    ensures var (rows', outcome) := Issue(rows, Found(user), name, expires, randoms, hash, defaultExpiry);
      outcome.Created? && |rows'| == |rows| + 1
      && var token := rows'[|rows|];
      token.name == name.value && 0 < |token.name| <= MaxNameLength
      && token.userId == user.id
      && token.secretHash == hash(outcome.secret)
      && token.tokenId == outcome.tokenId
      && IsRandomString(outcome.secret) && IsRandomString(outcome.tokenId)
  {
  }

  /** The expiry is the default when none is given and the given value
      otherwise; a given value is a `Y-m-d` date unless it is blank. */
  lemma SavedExpiry(rows: seq<ApiToken>, user: User, name: Option<string>,
                    expires: Option<string>, randoms: seq<string>,
                    hash: string -> string, defaultExpiry: string)
    requires CanRun(rows, Found(user), name, expires, randoms)
    requires NameValid(name) && ExpiresValid(expires)
    ensures var (rows', _) := Issue(rows, Found(user), name, expires, randoms, hash, defaultExpiry);
      |rows'| == |rows| + 1
      && (expires.None? ==> rows'[|rows|].expiresAt == defaultExpiry)
      && (expires.Some? ==> rows'[|rows|].expiresAt == expires.value
                            && (IsBlank(expires.value) || ValidYmd(expires.value)))
  {
  }

  /** The collision loop settles on the first candidate id that is not
      taken, skipping only ids already in the table. */
  lemma SavedIdIsFirstFreeCandidate(rows: seq<ApiToken>, user: User, name: Option<string>,
                                    expires: Option<string>, randoms: seq<string>,
                                    hash: string -> string, defaultExpiry: string)
    requires CanRun(rows, Found(user), name, expires, randoms)
    requires NameValid(name) && ExpiresValid(expires)
    ensures var (_, outcome) := Issue(rows, Found(user), name, expires, randoms, hash, defaultExpiry);
      exists k :: 1 <= k < |randoms| && outcome == Created(randoms[k], randoms[0])
               && !HasTokenId(rows, randoms[k])
               && forall i :: 1 <= i < k ==> HasTokenId(rows, randoms[i])
  {
  }

  /** Within one run, the collision loop changes only the id: the saved
      row is the record assembled before the loop, from the first id
      drawn, with its id replaced by the one printed. */
  lemma CollisionLoopKeepsAssembledRecord(rows: seq<ApiToken>, user: User, name: Option<string>,
                                          expires: Option<string>, randoms: seq<string>,
                                          hash: string -> string, defaultExpiry: string)
    requires CanRun(rows, Found(user), name, expires, randoms)
    requires NameValid(name) && ExpiresValid(expires)
    ensures var (rows', outcome) := Issue(rows, Found(user), name, expires, randoms, hash, defaultExpiry);
      outcome.Created? && |rows'| == |rows| + 1
      && rows'[|rows|] == Assemble(name.value, randoms[1], randoms[0], user,
                                   ResolveExpiry(expires, defaultExpiry), hash).(tokenId := outcome.tokenId)
  {
  }

  /** Collisions change only the id: two runs over the same table that draw
      the same secret save rows that agree on every other column, however
      many ids each of them had to draw. */
  lemma CollisionsChangeOnlyTheId(rows: seq<ApiToken>, user: User, name: Option<string>,
                                  expires: Option<string>, randoms1: seq<string>, randoms2: seq<string>,
                                  hash: string -> string, defaultExpiry: string)
    requires CanRun(rows, Found(user), name, expires, randoms1)
    requires CanRun(rows, Found(user), name, expires, randoms2)
    requires NameValid(name) && ExpiresValid(expires)
    requires randoms1[0] == randoms2[0]
    ensures var (rows1, outcome1) := Issue(rows, Found(user), name, expires, randoms1, hash, defaultExpiry);
      var (rows2, outcome2) := Issue(rows, Found(user), name, expires, randoms2, hash, defaultExpiry);
      |rows1| == |rows2| == |rows| + 1
      && rows1[|rows|].(tokenId := rows2[|rows|].tokenId) == rows2[|rows|]
      && outcome1.secret == outcome2.secret
  {
  }

  /** Issuing keeps the `token_id`s of the table distinct. */
  lemma IssueKeepsIdsUnique(rows: seq<ApiToken>, lookup: UserLookup, name: Option<string>,
                            expires: Option<string>, randoms: seq<string>,
                            hash: string -> string, defaultExpiry: string)
    requires CanRun(rows, lookup, name, expires, randoms)
    requires UniqueTokenIds(rows)
    ensures UniqueTokenIds(Issue(rows, lookup, name, expires, randoms, hash, defaultExpiry).0)
  {
  }

  /** When the first id drawn is already taken, the command draws again and
      saves the next one that is free. */
  lemma RetriesTakenId(rows: seq<ApiToken>, user: User, name: Option<string>, expires: Option<string>,
                       taken: string, free: string, secret: string,
                       hash: string -> string, defaultExpiry: string)
    requires HasTokenId(rows, taken) && !HasTokenId(rows, free)
    requires IsRandomString(secret) && IsRandomString(taken) && IsRandomString(free)
    requires NameValid(name) && ExpiresValid(expires)
    ensures CanRun(rows, Found(user), name, expires, [secret, taken, free])
    ensures Issue(rows, Found(user), name, expires, [secret, taken, free], hash, defaultExpiry).1
            == Created(free, secret)
  {
    var randoms := [secret, taken, free];
    assert !HasTokenId(rows, randoms[2]);
    assert FirstFreeCandidate(rows, randoms, 1) == 2;
  }

  /** The scenario of the command's test: a token named "TestToken" for
      user 7 with no expiry succeeds and saves one row for user 7 with that
      name and the default expiry. */
  lemma CreatesTokenForUser(rows: seq<ApiToken>, email: string, randoms: seq<string>,
                            hash: string -> string, defaultExpiry: string)
    requires AllRandomStrings(randoms) && HasFreeCandidate(rows, randoms, 1)
    ensures CanRun(rows, Found(User(7, email)), Some("TestToken"), None, randoms)
    ensures var (rows', outcome) := Issue(rows, Found(User(7, email)), Some("TestToken"), None, randoms,
                                          hash, defaultExpiry);
      outcome.ExitCode() == SUCCESS && |rows'| == |rows| + 1
      && rows'[|rows|].userId == 7 && rows'[|rows|].name == "TestToken"
      && rows'[|rows|].expiresAt == defaultExpiry
  {
    assert !IsBlank("TestToken") by { assert !IsTrimmed("TestToken"[0]); }
  }
}
