# GameLibrary in Dafny

GameLibrary is a small ASP.NET Core web API for a personal game library.
Users register and log in with an e-mail and a password, and receive a
one-hour JWT bearer token. With that token they create, update and delete
games they own. Anyone can list all games or fetch one by id.

The stored data is two tables: games keyed by id, each with an owner, and
users. The code has two parallel layers over that store, and this model
covers both:

- **Controllers**: `GamesController` and `AuthController` are the routed HTTP
  path. They work on the database context directly and rely on the framework's
  `ModelState` for input validation.
- **Services**: `GameService` (over `GameRepository`) and `AuthService` validate
  their input explicitly and throw `ArgumentException` on a rejected request.

The model has seven modules, one per file:

- `Base`: nullable references as `Option`, and `string.IsNullOrWhiteSpace`
  with .NET's white-space set.
- `Models`: the entities, the request bodies, and the field copies that
  AutoMapper performs between them.
- `Jwt`: the token as its claims, `GenerateToken`, and the bearer validation
  configured at startup.
- `Data`: the store, as a `Database` value plus the `GameContext` class.
  - A `Database` holds the games map, the users sequence and the key counters
    SQLite assigns from.
  - `GameContext` holds that value and the change tracker's pending changes.
    `SaveChanges` commits the pending changes all at once, or none of them.
- `Repositories`: the `GameRepository` class.
- `Services`: the validation rules, and the `GameService` and `AuthService`
  classes.
- `Controllers`: the two controllers, lemmas comparing the two layers, and an
  end-to-end session.

Operations that change state are methods on those classes. Each one states
its whole new state in terms of the `Database` functions (`InsertGame`,
`ReplaceGame`, `DeleteGame`, `InsertUser`). Lemmas about those functions carry
the rest: listing order, owner filtering, login after registration, and
unique e-mails.

Two behaviours of the code are worth stating up front:

- **The update is not partial.** `UpdateAsync` and the controller's `Update`
  map the request onto the stored game. The map
  (GameLibrary.Api/Mappings/GameProfile.cs:13) declares no null-skip
  condition, so every field of the request is copied, null or not; only the
  key and the owner of the old record survive
  (`Models.MapOntoKeepsOnlyKeyAndOwner`). In the model the mapped record is
  stored as it is. In the program, a null name, cover URL, description or
  Steam link then fails the save (see "## Left out"), so only the studio and
  the price can actually be cleared.
- **POST api/games does not answer with the `CreatedAtAction` reply.** See
  "## Findings".

## Model

| member | source | states |
|---|---|---|
| Base.IsWhiteSpace | GameLibrary.Api/Services/GameService.cs:44 | the characters `char.IsWhiteSpace` accepts: U+0009 to U+000D, space, U+0085, U+00A0, U+1680, U+2000 to U+200A, U+2028, U+2029, U+202F, U+205F and U+3000 |
| Base.IsNullOrWhiteSpace | GameLibrary.Api/Services/GameService.cs:44 | `string.IsNullOrWhiteSpace`: the reference is null, or every character of the string is white space (so the empty string too) |
| Base.NotBlank | GameLibrary.Api/Services/GameService.cs:44 | a string with one non-white-space character is not null-or-white-space |
| Base.ToLower | GameLibrary.Api/Services/AuthService.cs:37 | lower-casing keeps the length, turns each upper-case ASCII letter into its lower-case letter (code point plus 32), leaves no upper-case ASCII letter, and changes no other character |
| Base.EqualsIgnoringCasePointwise | GameLibrary.Api/Services/AuthService.cs:37 | `a.ToLower() == b.ToLower()` holds exactly when the strings have the same length and agree at every position once each character is lower-cased |
| Base.EqualsIgnoringCase | GameLibrary.Api/Services/AuthService.cs:37 | the comparison `a.ToLower() == b.ToLower()`, with `ToLower` as ASCII lower-casing |
| Models.GameFrom | GameLibrary.Api/Mappings/GameProfile.cs:12 | a game built from a create request has key and owner 0 and every other field (name, studio, cover URL, price, description, Steam link) equal to the request's |
| Models.MapOnto | GameLibrary.Api/Mappings/GameProfile.cs:13 | mapping an update request onto a game keeps its key and owner and takes all six other fields (name, studio, cover URL, price, description, Steam link) from the request, null or not |
| Models.MapOntoKeepsOnlyKeyAndOwner | GameLibrary.Api/Services/GameService.cs:80 | only the key and owner of the old record survive an update; a null description in the request gives a null description in the mapped record |
| Models.UserFrom | GameLibrary.Api/Mappings/AuthProfile.cs:12 | a user built from a register request has key 0 and exactly the request's e-mail and password |
| Jwt.GenerateToken | GameLibrary.Api/Services/AuthService.cs:72-89 | the token's subject is the user's id, its e-mail claim the user's e-mail, with the configured issuer, audience and key, and expiry one hour after issue |
| Jwt.ValidateToken | GameLibrary.Api/Program.cs:64-73 | a token is accepted exactly when key, issuer and audience match and it has not expired beyond the 5-minute clock skew; the identity is its subject |
| Jwt.IssuedTokenIdentifiesUser | GameLibrary.Api/Controllers/AuthController.cs:94-117 | an issued token identifies its user until one hour plus the clock skew after issue, and is rejected afterwards |
| Jwt.ForeignKeyRejected | GameLibrary.Api/Program.cs:69-72 | a token signed under another key is never accepted |
| Data.Database.AllGames | GameLibrary.Api/Repositories/GameRepository.cs:24 | the table listing holds exactly the stored games, each once, in increasing key order |
| Data.Database.Find | GameLibrary.Api/Repositories/GameRepository.cs:19 | a lookup returns the listed game with that key, or null when no listed game has it |
| Data.Database.GamesOf | GameLibrary.Api/Repositories/GameRepository.cs:29 | the owner query holds exactly the stored games of that owner, in key order |
| Data.Database.Authorize | GameLibrary.Api/Controllers/GamesController.cs:124-128 | the ownership check is Missing exactly when the key is absent and Granted exactly when the caller owns the game |
| Data.Database.InsertGame | GameLibrary.Api/Repositories/GameRepository.cs:32-35 | committing an added game stores it under the next key, with one more game and every other lookup unchanged |
| Data.Database.ReplaceGame | GameLibrary.Api/Repositories/GameRepository.cs:37-40 | committing an update stores the new record under its key and leaves every other lookup and the users unchanged |
| Data.Database.DeleteGame | GameLibrary.Api/Repositories/GameRepository.cs:42-45 | committing a removal deletes that key only, one game fewer, every other lookup unchanged |
| Data.Database.InsertUser | GameLibrary.Api/Services/AuthService.cs:42-43 | committing an added user appends exactly that user under the next user key; games untouched |
| Data.RowsContents | GameLibrary.Api/Repositories/GameRepository.cs:24 | the rows from a key on are exactly the stored games with key at least that key |
| Data.RowsOrdered | GameLibrary.Api/Repositories/GameRepository.cs:24 | the rows are in strictly increasing key order |
| Data.RowsCount | GameLibrary.Api/Repositories/GameRepository.cs:24 | there is one row per stored key |
| Data.WhereOwner | GameLibrary.Api/Repositories/GameRepository.cs:29 | the filter keeps exactly the games of that owner, no more of them, and keeps their order |
| Data.WhereOwnerAppend | GameLibrary.Api/Controllers/GamesController.cs:71-73 | filtering a listing extended by one game extends the filtered listing by that game exactly when that owner owns it |
| Data.RowsAfterInsert | GameLibrary.Api/Repositories/GameRepository.cs:32-35 | after an insert the rows are the old rows followed by the new game |
| Data.InsertGameAppendsRow | GameLibrary.Api/Repositories/GameRepository.cs:22-25 | after an insert the full listing is the old listing followed by the new game |
| Data.InsertGameExtendsGamesOf | GameLibrary.Api/Services/GameService.cs:35-39 | after an insert an owner's listing is the old one, followed by the new game exactly when that owner owns it |
| Data.Database.IsOwner | GameLibrary.Api/Services/GameService.cs:24 | the negation of the service's refusal (the game is null or has another owner): the key is stored and its game's owner is the caller |
| Data.Database.EmailTaken | GameLibrary.Api/Services/AuthService.cs:37 | the uniqueness query: some stored user's e-mail equals the given one after both are lower-cased |
| Data.CaseVariantIsTaken | GameLibrary.Api/Controllers/AuthController.cs:45-49 | an e-mail differing from a stored user's only in the case of ASCII letters counts as taken, so registering it is refused |
| Data.Matches | GameLibrary.Api/Services/AuthService.cs:61 | the login predicate: the user's e-mail and password equal the request's exactly, case-sensitively, with a null password matching only a null password |
| Data.FirstMatch | GameLibrary.Api/Services/AuthService.cs:61 | the login query finds a user exactly when some user has that exact e-mail and password, and then the first such user in table order |
| Data.Database.FirstUserWith | GameLibrary.Api/Services/AuthService.cs:61 | the login query `FirstOrDefaultAsync(u => u.Email == email && u.Password == password)`: the first user in table order matching both exactly, or null |
| Data.FirstMatchAfterAppend | GameLibrary.Api/Services/AuthService.cs:61 | when no user matches, an appended user becomes the match exactly when it matches |
| Data.InsertUserKeepsEmailsUnique | GameLibrary.Api/Services/AuthService.cs:37-43 | inserting a user whose e-mail is not taken ignoring case keeps all e-mails distinct ignoring case |
| Data.RegisteredUserCanLogIn | GameLibrary.Api/Services/AuthService.cs:37-61 | after registering an untaken e-mail, a login with that e-mail and password finds exactly the new user under its assigned key |
| Data.LoginFindsThatUser | GameLibrary.Api/Services/AuthService.cs:61 | with e-mails unique, the user a login finds is the one whose credentials were given |
| Data.Step | GameLibrary.Api/Repositories/GameRepository.cs:47-50 | one committed change fails exactly when it updates or removes a key that is not stored, and otherwise keeps the store consistent |
| Data.Apply | GameLibrary.Api/Repositories/GameRepository.cs:47-50 | committing the pending changes keeps the store consistent, and committing none changes nothing; with `Data.ApplyOne` and `Data.ApplyConcat` it commits the changes one by one in order |
| Data.ApplyConcat | GameLibrary.Api/Repositories/GameRepository.cs:47-50 | saving two batches of changes in one go commits the first batch in order and then the second, and fails exactly when either part fails |
| Data.ApplyOne | GameLibrary.Api/Repositories/GameRepository.cs:47-50 | saving one pending change commits exactly that change |
| Data.GameContext.AddGame | GameLibrary.Api/Controllers/GamesController.cs:97 | adding a game records it as pending and leaves the committed store unchanged |
| Data.GameContext.UpdateGame | GameLibrary.Api/Repositories/GameRepository.cs:39 | a game whose store-generated key is unset (0) is tracked as an insertion, any other as a pending update; the committed store is unchanged |
| Data.GameContext.RemoveGame | GameLibrary.Api/Controllers/GamesController.cs:159 | removing a game records the removal of its key as pending; the committed store is unchanged |
| Data.GameContext.AddUser | GameLibrary.Api/Controllers/AuthController.cs:53 | adding a user records it as pending; the committed store is unchanged |
| Data.GameContext.SaveChanges | GameLibrary.Api/Controllers/GamesController.cs:98 | saving commits all pending changes and clears them when all apply, and otherwise commits nothing and keeps them |
| Repositories.GameRepository.GetByIdAsync | GameLibrary.Api/Repositories/GameRepository.cs:17-20 | returns the stored game with that key exactly when one exists, and the same game the full listing has under that key |
| Repositories.GameRepository.GetAllAsync | GameLibrary.Api/Repositories/GameRepository.cs:22-25 | returns every stored game and nothing else, one entry per stored key |
| Repositories.GameRepository.GetByOwnerIdAsync | GameLibrary.Api/Repositories/GameRepository.cs:27-30 | every result is a stored game of that owner, and no stored game of that owner is omitted |
| Repositories.GameRepository.AddAsync | GameLibrary.Api/Repositories/GameRepository.cs:32-35 | the game is tracked for insertion; nothing is stored until the save |
| Repositories.GameRepository.Update | GameLibrary.Api/Repositories/GameRepository.cs:37-40 | the game's record is tracked for replacement, or for insertion when its key is unset (0); nothing is stored until the save |
| Repositories.GameRepository.Delete | GameLibrary.Api/Repositories/GameRepository.cs:42-45 | the game's key is tracked for removal; nothing is stored until the save |
| Repositories.GameRepository.SaveChangesAsync | GameLibrary.Api/Repositories/GameRepository.cs:47-50 | commits the tracked changes, all or nothing |
| Repositories.AddThenSave | GameLibrary.Api/Repositories/GameRepository.cs:32-50 | add then save stores the game under the next key and leaves every other game unchanged |
| Repositories.UpdateThenSave | GameLibrary.Api/Repositories/GameRepository.cs:37-50 | update then save inserts a game with an unset key under the next key; otherwise it replaces exactly that record when its key is stored and fails with nothing changed when it is not; no other game ever changes |
| Repositories.DeleteThenSave | GameLibrary.Api/Repositories/GameRepository.cs:42-50 | delete then save removes exactly that game when its key is stored, fails otherwise, and never changes another game |
| Services.Filled | GameLibrary.Api/Services/GameService.cs:44 | the create-time text rule: not null, not blank, and at least the minimum length |
| Services.BlankOrLongEnough | GameLibrary.Api/Services/GameService.cs:69 | the update-time text rule: either not given (null or blank) or at least the minimum length |
| Services.CreateFault | GameLibrary.Api/Services/GameService.cs:44-53 | a create request is accepted exactly when name (at least 3), cover URL and description (at least 10) are filled; the name fault comes first, then the cover URL |
| Services.UpdateFault | GameLibrary.Api/Services/GameService.cs:69-78 | an update request is accepted exactly when a given name has at least 3 characters, a non-null cover URL is not blank and a given description has at least 10; the name fault comes first, then the cover-URL fault, then the description fault |
| Services.CreateRulesImplyUpdateRules | GameLibrary.Api/Services/GameService.cs:44-78 | every request the create rules accept, the update rules accept too |
| Services.UpdateAcceptsBlankName | GameLibrary.Api/Services/GameService.cs:69-80 | a blank name passes the update rules and is stored, although the create rules reject it |
| Services.GameService.GetByIdAsync | GameLibrary.Api/Services/GameService.cs:21-27 | returns a game exactly when it exists and the caller owns it |
| Services.GameService.GetAllAsync | GameLibrary.Api/Services/GameService.cs:29-33 | returns every stored game once, as many as are stored |
| Services.GameService.GetMyGamesAsync | GameLibrary.Api/Services/GameService.cs:35-39 | returns exactly the stored games the caller owns |
| Services.GameService.CreateAsync | GameLibrary.Api/Services/GameService.cs:41-60 | throws the first failing check and stores nothing; otherwise stores exactly one game owned by the caller under the next key, which joins the end of the caller's listing |
| Services.GameService.UpdateAsync | GameLibrary.Api/Services/GameService.cs:62-84 | false and nothing changed when the game is missing or another user's, before any validation; then a failing check throws and changes nothing; otherwise the record is overwritten keeping key and owner |
| Services.GameService.DeleteAsync | GameLibrary.Api/Services/GameService.cs:86-94 | true exactly when the caller owns an existing game, which alone is then removed; otherwise false and nothing changed |
| Services.EmailAcceptable | GameLibrary.Api/Services/AuthService.cs:31 | the register e-mail rule: not null, not blank, and containing '@' |
| Services.PasswordAcceptable | GameLibrary.Api/Services/AuthService.cs:34 | the register password rule: not null, not blank, and at least 6 characters |
| Services.AuthService.LoginAsync | GameLibrary.Api/Services/AuthService.cs:52-70 | blank e-mail, then blank password, is rejected; with both filled it succeeds exactly when some user has that exact e-mail and password, and is rejected with bad credentials exactly when none has; a success carries a token for a matching user; the store is only read |
| Services.AuthService.RegisterAsync | GameLibrary.Api/Services/AuthService.cs:28-50 | e-mail, then password, then case-insensitive uniqueness are checked before anything is stored; success stores exactly one user, returns its token, lets it log in, and keeps e-mails unique |
| Controllers.RoutedActionName | GameLibrary.Api/Program.cs:13 | the routed name of an action is its method name with a trailing "Async" dropped (the routed name followed by "Async" is the method name), and the method name itself when it has no such suffix |
| Controllers.Routable | GameLibrary.Api/Controllers/GamesController.cs:101 | the route lookup behind `CreatedAtAction`: an action name has a route exactly when it is the routed name of one of the six `GamesController` actions listed in `GamesActionMethods` |
| Controllers.CreatedAtAction | GameLibrary.Api/Controllers/GamesController.cs:101 | the reply is 201 with the body exactly when the named action has a route, and a 500 otherwise |
| Controllers.GetByIdAsyncIsNotRoutable | GameLibrary.Api/Controllers/GamesController.cs:50 | the lookup action is routed as "GetById", and no action is routed as "GetByIdAsync" |
| Controllers.GamesController.GetAll | GameLibrary.Api/Controllers/GamesController.cs:37-41 | Ok with every stored game, unfiltered, each once |
| Controllers.GamesController.GetByIdAsync | GameLibrary.Api/Controllers/GamesController.cs:50-57 | Ok with the game whenever its key is stored, whoever asks, and NotFound exactly when it is not |
| Controllers.GamesController.GetMyGames | GameLibrary.Api/Controllers/GamesController.cs:67-76 | Ok with exactly the stored games whose owner is the caller |
| Controllers.GamesController.CreateAsWritten | GameLibrary.Api/Controllers/GamesController.cs:87-102 | BadRequest before any store access on an invalid model state; otherwise one game owned by the caller is stored and the reply is a 500 |
| Controllers.GamesController.Create | GameLibrary.Api/Controllers/GamesController.cs:87-102 | the corrected create of the Findings row (the reply names the routed "GetById", not the written "GetByIdAsync"): BadRequest before any store access on an invalid model state; otherwise exactly one game owned by the caller is stored under the next key and returned as Created, at the end of the caller's listing |
| Controllers.GamesController.Update | GameLibrary.Api/Controllers/GamesController.cs:116-135 | BadRequest, then NotFound, then Forbid, each with the store unchanged; otherwise the record is overwritten keeping key and owner, and NoContent |
| Controllers.GamesController.Delete | GameLibrary.Api/Controllers/GamesController.cs:148-163 | NotFound, then Forbid, each with the store unchanged; otherwise exactly that game is removed, and NoContent |
| Controllers.AuthController.Login | GameLibrary.Api/Controllers/AuthController.cs:74-92 | BadRequest on an invalid model state; otherwise Ok exactly when some user has that exact e-mail and password, and Unauthorized exactly when none has; an Ok carries a token for a matching user; the store is only read |
| Controllers.AuthController.Register | GameLibrary.Api/Controllers/AuthController.cs:40-63 | BadRequest on an invalid model state, and BadRequest when the e-mail is taken ignoring case, storing nothing; otherwise exactly one user is stored, Ok with its token, it can log in, and e-mails stay unique |
| Controllers.GetByIdLayersDiffer | GameLibrary.Api/Services/GameService.cs:21-27 | the service's lookup answers exactly when the controller's does and the caller owns the game, and then with the same game |
| Controllers.LoginLayersAgree | GameLibrary.Api/Controllers/AuthController.cs:74-92 | with both fields filled, the controller's login and the service's login accept the same requests and issue the same response |
| Controllers.EndToEnd | GameLibrary.Api/Controllers/AuthController.cs:40-92 | on a fresh store, using the corrected create of the Findings row: register gives subject 1, create gives game 1 owned by 1, login gives a new token for 1, delete is NoContent, and the lookup is NotFound |

## Left out

- Token encoding and signing: the JWT serialisation and the HMAC-SHA256 signature are done by library code. A token is modelled by its claims, and the signature by the key that signed it.
- Clock: `DateTime.UtcNow` is the parameter `now`, in whole seconds.
- Caller identity: `int.Parse` of the NameIdentifier claim is not modelled. An `[Authorize]` action receives the subject of the validated token as `userId`.
- Request validation by DataAnnotations (`[Required]`, `[MinLength]`, `[Url]`, `[Range]`, `[EmailAddress]`) is done by the framework. It is the boolean input `modelStateValid`, and its limits are not merged with the services' limits.
- Controllers.AuthController.Register: the 500 for a null e-mail in a request that passed model validation is stated, but it cannot happen, because `[Required]` rejects a null e-mail first.
- AutoMapper is modelled as plain field copies. The `GameResponse` the service returns has the same members, so the services return the `Game`.
- Entity Framework and SQLite internals are not modelled:
  - the identity map;
  - NOT NULL constraints on the game columns. `Name`, `CoverImageUrl`, `Description` and `SteamLink` are non-nullable `string`s (GameLibrary.Api/Models/Game.cs:6-11), so in the program a create or update that leaves one of them null fails at `SaveChangesAsync` and stores nothing, while the model stores the null;
  - a caller-chosen non-zero key on insert;
  - anything other than a missing key as a reason for a failed save.
- Reads in the model see only committed rows, which is what every operation does in practice. Each request has its own scoped context, so the mutators require an empty change tracker.
- Async, concurrency and the register check-then-insert race are not modelled: the model is sequential.
- `decimal` price: the price is an opaque optional value; nothing computes with it.
- Culture rules: `ToLower` is ASCII lower-casing. String length is counted in characters, not UTF-16 code units.
- Listing order: EF does not guarantee the row order of an unordered query. The model lists in primary-key order, which is SQLite's rowid order.
- `GenerateToken` exists in both `AuthService` and `AuthController` with identical bodies. It is modelled once, as `Jwt.GenerateToken`.
- Startup and the rest of Program.cs are not modelled: dependency injection, Swagger, HTTPS redirection and the middleware order. Only the bearer validation settings and the default routing convention are modelled.
- Controllers.GamesController.CreateAsWritten: the 201 response's Location URL is not modelled. Only whether a route to the lookup action exists is modelled.

## Findings

| source | as written | input that shows it | evidently intended | confidence | as-written member | corrected member |
|---|---|---|---|---|---|---|
| GameLibrary.Api/Controllers/GamesController.cs:101 | `CreatedAtAction(nameof(GetByIdAsync), ...)` names the action "GetByIdAsync". With the default MVC options set up at GameLibrary.Api/Program.cs:13, the trailing "Async" is dropped, so that action is routed as "GetById". No route matches, and building the Location header throws after `SaveChangesAsync` has already stored the game | any valid POST api/games, e.g. name "Doom", cover "http://x", description "classic shooter game", Steam link "http://s" | the 201 Created that `CreatedAtAction` is meant to produce, with a Location naming the routed lookup action | medium, not executed | Controllers.GamesController.CreateAsWritten with Controllers.GetByIdAsyncIsNotRoutable | Controllers.GamesController.Create |
