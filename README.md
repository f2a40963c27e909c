# Issuing an API token (`bookstack:create-api-token`)

This project models the console command that creates an API token for a
BookStack user. One run does the following:

1. It resolves the target user. A failed lookup ends the run with FAILURE.
2. It validates the token name (`required`, `max:250`) and the optional
   expiry (`nullable`, `date_format:Y-m-d`). Every failure is reported, and
   nothing is created when any rule fails.
3. When no expiry is given, it uses the default expiry.
4. It draws a 32-character secret and a 32-character `token_id`.
5. It builds the row with the hash of the secret. The plaintext secret is
   never stored.
6. While the `token_id` is already in the `api_tokens` table, it draws a new
   one. Only the id is redrawn; the secret is not.
7. It saves exactly one row, prints the id and the secret, and returns
   SUCCESS.

Modules, one per concern:

- `Optional` (`optional.dfy`) holds the `Option` type.
- `YmdDate` (`ymd_date.dfy`) models the `date_format:Y-m-d` rule by the set
  of strings it accepts, on the proleptic Gregorian calendar.
  - Laravel parses leniently and then rejects any string that formatting
    the parsed date does not give back.
  - `ParseYmd`, a strict `YYYY-MM-DD` parser, stands in for that lenient
    parse and the comparison together. `FormatYmd` is the printer.
  - `ValidYmd` is the rule.
  - The two round-trip lemmas show that `ValidYmd` accepts exactly the
    `YYYY-MM-DD` forms of calendar dates, which is the rule's accept set.
- `TokenValidation` (`token_validation.dfy`) holds the validator's rules and
  `Validate`, which lists every failure with the name first.
- `ApiTokens` (`api_tokens.dfy`) holds the row type `ApiToken` and the table
  `TokenStore`.
  - The table is a class whose `rows` field is a sequence.
  - `Exists` is the query, a scan of the rows, and `Save` the insert.
  - Keeping `token_id`s distinct is the invariant `Valid()`.
- `CreateApiTokenCommand` (`create_api_token_command.dfy`) holds the command.
  - `Issue` is a pure statement of one run: the outcome and the table
    afterwards.
  - `Handle` is the imperative command. It works on the `TokenStore` object,
    updates its local `token` record in place inside a `while` loop, and is
    proved to agree with `Issue`.
  - The lemmas state the command's properties about `Issue`.

The collaborators the command calls are inputs:

- The user lookup arrives as `UserLookup`: a found `User` or a failure
  message.
- The values that successive `Str::random(32)` calls return arrive as the
  sequence `randoms`:
  - `randoms[0]` is the secret, which is drawn first (line 69);
  - `randoms[1]` is the first id (line 73);
  - each further element is one redraw (line 80).
- `Hash::make` is the function parameter `hash`.
- `ApiToken::defaultExpiry()` is the string parameter `defaultExpiry`.
  The source of the `ApiToken` model class is not part of this model, and the value depends on the clock.

The source loop at line 79 has no bound. The model does not use
`decreases *`. Instead, `Handle` and `Issue` require (`CanRun`) that every
drawn value has the form `Str::random(32)` promises. When the run reaches the
loop, they also require that some candidate id at index 1 or later is not in
the table. The loop then provably ends at the first such candidate.

The name is the value after the interactive prompt that the command shows
when `--name` is empty. `None` stands for a prompt answered with nothing.

Some Laravel validator rules are written out as predicates:

- `required` fails on an absent value and on a string that PHP's `trim`
  empties.
- `max:250` counts characters and is applied only to a value that is not
  blank.
- `nullable` lets an absent expiry through.
- `date_format` is not applied to a blank value.

A blank `--expires` therefore passes validation and is stored as given.
Line 68's `??` replaces only a missing value.

## Model

| member | source | states |
|---|---|---|
| `YmdDate.ParseYmd` | app/Console/Commands/CreateApiTokenCommand.php:58 | a string it parses yields a calendar date with year at most 9999 (the strict parse standing in for the rule's lenient parse plus reformat check) |
| `YmdDate.FormatYmd` | app/Console/Commands/CreateApiTokenCommand.php:58 | the `Y-m-d` printout of a calendar date is 10 characters with dashes at positions 4 and 7 |
| `YmdDate.ValidYmd` | app/Console/Commands/CreateApiTokenCommand.php:58 | an accepted string is four digits, a dash, two digits, a dash, two digits |
| `YmdDate.ParseFormatRoundTrip` | app/Console/Commands/CreateApiTokenCommand.php:58 | parsing the `Y-m-d` form of any calendar date with year at most 9999 gives that date back |
| `YmdDate.FormatParseRoundTrip` | app/Console/Commands/CreateApiTokenCommand.php:58 | a string the strict parser accepts is exactly the formatting of the date it yields |
| `YmdDate.ValidYmdIffFormatted` | app/Console/Commands/CreateApiTokenCommand.php:58 | the `date_format:Y-m-d` rule accepts a string if and only if it is the `Y-m-d` form of some calendar date |
| `YmdDate.AcceptsIsoDate` | app/Console/Commands/CreateApiTokenCommand.php:58 | "2024-12-31" is accepted |
| `YmdDate.RejectsDayFirst` | app/Console/Commands/CreateApiTokenCommand.php:58 | the day-first "31-12-2024" is rejected |
| `YmdDate.RejectsMissingDay` | app/Console/Commands/CreateApiTokenCommand.php:58 | "2023-02-29", a day that month does not have, is rejected |
| `YmdDate.DigitsValueOfPad` | app/Console/Commands/CreateApiTokenCommand.php:58 | reading back a number printed with zero padding in a wide enough field gives the number |
| `YmdDate.PadOfDigitsValue` | app/Console/Commands/CreateApiTokenCommand.php:58 | printing the number a digit string denotes, padded to the string's width, gives the string back, leading zeros included |
| `TokenValidation.TrimLeft` | app/Console/Commands/CreateApiTokenCommand.php:57 | the result is a suffix of the input, what it drops is all `trim` characters, and it does not start with one |
| `TokenValidation.TrimRight` | app/Console/Commands/CreateApiTokenCommand.php:57 | the result is a prefix of the input, what it drops is all `trim` characters, and it does not end with one |
| `TokenValidation.TrimEmptyIffBlank` | app/Console/Commands/CreateApiTokenCommand.php:57 | PHP's `trim` empties a string if and only if every character of it is one `trim` removes |
| `TokenValidation.Required` | app/Console/Commands/CreateApiTokenCommand.php:57 | `required` holds if and only if a name is present and `trim` of it is not the empty string |
| `TokenValidation.NameValid` | app/Console/Commands/CreateApiTokenCommand.php:57 | a name passing `required` and `max:250` is present, non-empty and at most 250 characters |
| `TokenValidation.ExpiresValid` | app/Console/Commands/CreateApiTokenCommand.php:58 | a given, non-blank expiry passing `nullable` and `date_format:Y-m-d` is 10 characters with dashes at positions 4 and 7 |
| `TokenValidation.Validate` | app/Console/Commands/CreateApiTokenCommand.php:53-66 | no errors if and only if the name is present, not blank and at most 250 characters and the expiry is absent, blank or `Y-m-d`; each rule's error is listed exactly when that rule fails; one error per bad field; the expiry error comes last |
| `TokenValidation.BadNameAndBadExpiryBothReported` | app/Console/Commands/CreateApiTokenCommand.php:53-65 | with a bad name and a bad expiry, both errors are reported: the name's (required or too long) first, then the expiry's |
| `TokenValidation.MalformedExpiryRejected` | app/Console/Commands/CreateApiTokenCommand.php:58-65 | "31-12-2024" and "2023-02-29" given as the expiry yield the date-format error whatever the name |
| `ApiTokens.AppendKeepsUnique` | app/Console/Commands/CreateApiTokenCommand.php:79-83 | adding a row keeps the table's `token_id`s distinct if and only if they were distinct and the new id is not in the table |
| `ApiTokens.TokenStore.Exists` | app/Console/Commands/CreateApiTokenCommand.php:79 | scanning the rows, the query answers true if and only if some row carries the given `token_id` |
| `ApiTokens.TokenStore.Save` | app/Console/Commands/CreateApiTokenCommand.php:83 | the table afterwards is the old table plus the one new row |
| `CreateApiTokenCommand.ResolveExpiry` | app/Console/Commands/CreateApiTokenCommand.php:68 | the default when no expiry is given, the given value otherwise; after validation it is the default, blank or a `Y-m-d` date |
| `CreateApiTokenCommand.AssembleStoresOnlyTheHash` | app/Console/Commands/CreateApiTokenCommand.php:69-77 | two secrets with the same hash assemble the same record, so only the hash of the secret is stored |
| `CreateApiTokenCommand.Issue` | app/Console/Commands/CreateApiTokenCommand.php:37-91 | a failed run leaves the table as it was; a successful run appends one row whose id was not in the table and is the printed id, and whose hash is that of the printed secret |
| `CreateApiTokenCommand.FirstFreeCandidate` | app/Console/Commands/CreateApiTokenCommand.php:79-81 | the index the collision loop stops at: a candidate not in the table, with every earlier candidate from the start index in the table |
| `CreateApiTokenCommand.Handle` | app/Console/Commands/CreateApiTokenCommand.php:37-91 | the outcome and the new table are those of `Issue` on the old table; a table with distinct `token_id`s keeps them distinct |
| `CreateApiTokenCommand.UserLookupFailureChangesNothing` | app/Console/Commands/CreateApiTokenCommand.php:39-44 | a failed user lookup gives FAILURE with its message and an unchanged table, whatever the name and expiry |
| `CreateApiTokenCommand.InvalidInputChangesNothing` | app/Console/Commands/CreateApiTokenCommand.php:53-66 | when a rule fails, the command reports every validation error, returns FAILURE and leaves the table unchanged |
| `CreateApiTokenCommand.SucceedsIffAccepted` | app/Console/Commands/CreateApiTokenCommand.php:39-90 | the exit code is SUCCESS if and only if the user is found and both inputs pass; the table is unchanged if and only if the exit code is FAILURE |
| `CreateApiTokenCommand.SuccessAddsOneFreshRow` | app/Console/Commands/CreateApiTokenCommand.php:71-83 | on success exactly one row is appended, every earlier row is kept unchanged, and the new `token_id` was not in the table before; the printed id is that row's and the printed secret is the first value drawn |
| `CreateApiTokenCommand.SavedRowFields` | app/Console/Commands/CreateApiTokenCommand.php:69-77 | the saved row holds the validated name, the found user's id and the hash of the printed secret, and its id is the printed id; id and secret are 32 letters and digits |
| `CreateApiTokenCommand.SavedExpiry` | app/Console/Commands/CreateApiTokenCommand.php:68 | with no expiry given, the saved expiry is the default; otherwise it is the given value, which is a `Y-m-d` date or blank |
| `CreateApiTokenCommand.SavedIdIsFirstFreeCandidate` | app/Console/Commands/CreateApiTokenCommand.php:73-81 | the saved id is the first candidate id not already in the table, and every candidate it skipped was in the table; the secret is the first value drawn |
| `CreateApiTokenCommand.CollisionLoopKeepsAssembledRecord` | app/Console/Commands/CreateApiTokenCommand.php:69-81 | within one run the saved row is the record assembled before the loop with only its id replaced by the printed id |
| `CreateApiTokenCommand.CollisionsChangeOnlyTheId` | app/Console/Commands/CreateApiTokenCommand.php:69-81 | two runs that draw the same secret save rows that agree on every column but the id and print the same secret, however many ids each drew |
| `CreateApiTokenCommand.IssueKeepsIdsUnique` | app/Console/Commands/CreateApiTokenCommand.php:79-83 | a run keeps the table's `token_id`s pairwise distinct |
| `CreateApiTokenCommand.RetriesTakenId` | app/Console/Commands/CreateApiTokenCommand.php:79-81 | when the first id drawn is taken and the next is free, the command saves and prints the next one with the first secret |
| `CreateApiTokenCommand.CreatesTokenForUser` | tests/Commands/CreateApiTokenCommandTest.php:10-22 | a token named "TestToken" for user 7 with no expiry gives exit code 0 and one new row with user id 7, that name and the default expiry |

## Left out

- Option parsing, the command signature, the interactive prompt for an empty `--name`, and all printed text (lines 21-25, 46-49, 85-88). The model takes the name after the prompt. The printed values are the `Created` outcome's `tokenId` and `secret`.
- `HandlesSingleUser::fetchProvidedUser` is not part of this model. Its result is the input `UserLookup`.
- The validator's message texts are not modelled. An error is identified by the rule that failed.
- A blank `--expires` passes validation and is stored as given. What the `ApiToken` model's date cast then does with it is not modelled, because the source of the `ApiToken` model class is not part of this model.
- The randomness of `Str::random` is not modelled, nor the chance that two draws collide. Its values are the supplied `randoms`. For that reason the model cannot show that the secret differs from the id.
- `Hash::make` is an arbitrary function `hash`. Its one-wayness cannot be expressed, so the model does not show that the stored hash differs from the secret. It shows only that the plaintext secret has no column.
- CollisionsChangeOnlyTheId: `hash` is one fixed, deterministic function, so the per-call random salt of `Hash::make` is fixed. Two real runs with the same secret store different hashes. Within one run, `CollisionLoopKeepsAssembledRecord` states the same property without that assumption.
- The lenient parse of `DateTime::createFromFormat` is not modelled. `ParseYmd` is strict, and `ValidYmd` matches only the rule's overall accept set. For example, "2024-1-05" is parsed by PHP and then rejected by the reformat comparison; here `ParseYmd` already refuses it.
- The `token_id` query is modelled as exact string equality. The column's collation, which SQL's `=` follows at line 79, is not modelled.
- `ApiToken::defaultExpiry()` is a parameter. Its clock-based value is not modelled.
- The SQL behind the query and the insert is not modelled. Neither are the columns `save()` fills by itself (the auto-increment key and the timestamps), nor a failing insert. The check-then-insert race between two concurrent runs is not modelled either. Runs are sequential, and `save` always succeeds.
- A run whose collision loop never ends is not modelled. `CanRun` requires a free candidate id among the supplied draws.
