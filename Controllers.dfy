/**
 * The HTTP layer that is actually routed: `GamesController` and
 * `AuthController`, both working on the database context directly. Request
 * validation is the framework's: `ModelState.IsValid` is an input. The acting
 * user of an `[Authorize]` endpoint is the subject of the validated bearer
 * token (see `Jwt.ValidateToken`), passed in as `userId`.
 */
module Controllers {
  import opened Base
  import opened Models
  import opened Data
  import opened Jwt
  import opened Services

  datatype BadRequestReason =
    | InvalidModelState    // BadRequest(ModelState)
    | UserAlreadyExists    // BadRequest("Usuário já existe.")

  /** The `IActionResult`s the actions return, with their status codes. */
  datatype ActionResult<T> =
    | Ok(body: T)                        // 200
    | Created(body: T)                   // 201, CreatedAtAction
    | NoContent                          // 204
    | BadRequest(reason: BadRequestReason) // 400
    | Unauthorized                       // 401, "Usuário ou senha inválidos."
    | Forbid                             // 403
    | NotFound                           // 404
    | InternalServerError                // 500, an unhandled exception

  /**
   * The name MVC routes an action method under: with the default options
   * (`SuppressAsyncSuffixInActionNames`) a trailing "Async" is dropped.
   */
  function RoutedActionName(methodName: string): (r: string)
    ensures |r| <= |methodName| && r == methodName[..|r|]
    ensures if |methodName| >= 5 && methodName[|methodName| - 5..] == "Async"
            then r + "Async" == methodName
            else r == methodName
  {
    if |methodName| >= 5 && methodName[|methodName| - 5..] == "Async" then
      assert methodName[..|methodName| - 5] + methodName[|methodName| - 5..] == methodName;
      methodName[..|methodName| - 5]
    else methodName
  }

  /** The action methods of `GamesController`. */
  const GamesActionMethods: seq<string> := ["GetAll", "GetByIdAsync", "GetMyGames", "Create", "Update", "Delete"]

  /** An action name that a link can be generated for. */
  predicate Routable(actionName: string) {
    exists i :: 0 <= i < |GamesActionMethods| && RoutedActionName(GamesActionMethods[i]) == actionName
  }

  /**
   * `CreatedAtAction(actionName, ...)`: 201 with the body when a route to
   * that action exists; otherwise formatting the Location header throws
   * ("No route matches the supplied values"), which is a 500.
   */
  function CreatedAtAction<T>(actionName: string, body: T): (r: ActionResult<T>)
    ensures r == Created(body) <==> Routable(actionName)
    ensures !Routable(actionName) ==> r == InternalServerError
  {
    if Routable(actionName) then Created(body) else InternalServerError
  }

  /** The lookup action is routed as "GetById", so "GetByIdAsync" names no route. */
  lemma GetByIdAsyncIsNotRoutable()
    ensures RoutedActionName("GetByIdAsync") == "GetById"
    ensures Routable("GetById")
    ensures !Routable("GetByIdAsync")
  {
    assert "GetByIdAsync"[7..] == "Async";
    assert RoutedActionName(GamesActionMethods[1]) == "GetById";
    forall i | 0 <= i < |GamesActionMethods| ensures RoutedActionName(GamesActionMethods[i]) != "GetByIdAsync" {
      assert |RoutedActionName(GamesActionMethods[i])| < |"GetByIdAsync"|;
    }
  }

  class GamesController {
    const context: GameContext

    constructor (context: GameContext)
      ensures this.context == context
    {
      this.context := context;
    }

    /** GET api/games: every stored game, unfiltered, each once. */
    function GetAll(): (r: ActionResult<seq<Game>>)
      reads context
      requires context.Valid()
      ensures r.Ok?
      ensures forall g :: g in r.body <==> context.db.Stored(g)
      ensures |r.body| == |context.db.games|
    {
      Ok(context.db.AllGames())
    }

    /**
     * GET api/games/{id}: the game whenever it exists, whoever asks (no owner
     * check), and NotFound otherwise.
     */
    function GetByIdAsync(id: int): (r: ActionResult<Game>)
      reads context
      requires context.Valid()
      ensures r.Ok? || r.NotFound?
      ensures r.NotFound? <==> id !in context.db.games
      ensures r.Ok? ==> r.body.id == id && context.db.Stored(r.body)
    {
      match context.db.Find(id)
      case None => NotFound
      case Some(game) => Ok(game)
    }

    /** GET api/games/me: exactly the stored games whose owner is the caller. */
    function GetMyGames(userId: int): (r: ActionResult<seq<Game>>)
      reads context
      requires context.Valid()
      ensures r.Ok?
      ensures forall g :: g in r.body <==> context.db.Stored(g) && g.ownerId == userId
    {
      Ok(context.db.GamesOf(userId))
    }

    /**
     * POST api/games as written: BadRequest, before the store is touched, when
     * the model state is invalid; otherwise exactly one game is stored, under
     * the next key and owned by the caller, but the reply names the action
     * "GetByIdAsync", which has no route, so the caller gets a 500 for a game
     * that was stored.
     */
    method CreateAsWritten(modelStateValid: bool, request: CreateGameRequest, userId: int)
      returns (r: ActionResult<Game>)
      requires context.Valid() && context.pending == []
      modifies context
      ensures context.Valid() && context.pending == []
      ensures !modelStateValid ==> r == BadRequest(InvalidModelState) && context.db == old(context.db)
      ensures modelStateValid ==>
                && r == InternalServerError
                && context.db == old(context.db).InsertGame(GameFrom(request).(ownerId := userId))
    {
      if !modelStateValid {
        return BadRequest(InvalidModelState);
      }
      var game := GameFrom(request).(ownerId := userId);
      var id := context.db.nextGameId;
      context.AddGame(game);
      ApplyOne(old(context.db), GameAdded(game));
      var saved := context.SaveChanges();
      GetByIdAsyncIsNotRoutable();
      r := CreatedAtAction("GetByIdAsync", game.(id := id));
    }

    /**
     * POST api/games with the reply naming the routed lookup action
     * ("GetById"): BadRequest, before the store is touched, when the model
     * state is invalid; otherwise exactly one game is stored, under the next
     * key and owned by the caller, and returned as Created; it joins the end
     * of the caller's listing.
     */
    method Create(modelStateValid: bool, request: CreateGameRequest, userId: int) returns (r: ActionResult<Game>)
      requires context.Valid() && context.pending == []
      modifies context
      ensures context.Valid() && context.pending == []
      ensures !modelStateValid ==> r == BadRequest(InvalidModelState) && context.db == old(context.db)
      ensures modelStateValid ==>
                && r == Created(GameFrom(request).(id := old(context.db.nextGameId), ownerId := userId))
                && context.db == old(context.db).InsertGame(GameFrom(request).(ownerId := userId))
                && GetMyGames(userId).body == old(GetMyGames(userId).body) + [r.body]
    {
      if !modelStateValid {
        return BadRequest(InvalidModelState);
      }
      ghost var before := context.db;
      var game := GameFrom(request).(ownerId := userId);
      // the key that saving assigns and writes back into the tracked entity
      var id := context.db.nextGameId;
      context.AddGame(game);
      ApplyOne(before, GameAdded(game));
      var saved := context.SaveChanges();
      InsertGameExtendsGamesOf(before, game, userId);
      GetByIdAsyncIsNotRoutable();
      r := CreatedAtAction("GetById", game.(id := id));
    }

    /**
     * PUT api/games/{id}: BadRequest on an invalid model state, then NotFound
     * for a missing key, then Forbid for another user's game, each with the
     * store unchanged; otherwise the row is overwritten with the request's
     * fields, keeping its key and owner, and the reply is NoContent.
     */
    method Update(modelStateValid: bool, id: int, request: UpdateGameRequest, userId: int)
      returns (r: ActionResult<Game>)
      requires context.Valid() && context.pending == []
      modifies context
      ensures context.Valid() && context.pending == []
      ensures !modelStateValid ==> r == BadRequest(InvalidModelState) && context.db == old(context.db)
      ensures modelStateValid && old(context.db).Authorize(id, userId) == Missing ==>
                r == NotFound && context.db == old(context.db)
      ensures modelStateValid && old(context.db).Authorize(id, userId) == NotOwner ==>
                r == Forbid && context.db == old(context.db)
      ensures modelStateValid && old(context.db).Authorize(id, userId) == Granted ==>
                && r == NoContent
                && context.db == old(context.db).ReplaceGame(MapOnto(request, old(context.db).games[id]))
    {
      if !modelStateValid {
        return BadRequest(InvalidModelState);
      }
      var existingGame := context.db.Find(id);
      if existingGame.None? {
        return NotFound;
      }
      if existingGame.value.ownerId != userId {
        return Forbid;
      }
      // mapping onto the tracked entity marks it modified
      var updated := MapOnto(request, existingGame.value);
      context.UpdateGame(updated);
      ApplyOne(old(context.db), GameUpdated(updated));
      var saved := context.SaveChanges();
      r := NoContent;
    }

    /**
     * DELETE api/games/{id}: NotFound for a missing key, then Forbid for
     * another user's game, each with the store unchanged; otherwise exactly
     * that game is removed and the reply is NoContent.
     */
    method Delete(id: int, userId: int) returns (r: ActionResult<Game>)
      requires context.Valid() && context.pending == []
      modifies context
      ensures context.Valid() && context.pending == []
      ensures old(context.db).Authorize(id, userId) == Missing ==> r == NotFound && context.db == old(context.db)
      ensures old(context.db).Authorize(id, userId) == NotOwner ==> r == Forbid && context.db == old(context.db)
      ensures old(context.db).Authorize(id, userId) == Granted ==>
                r == NoContent && context.db == old(context.db).DeleteGame(id)
    {
      var game := context.db.Find(id);
      if game.None? {
        return NotFound;
      }
      if game.value.ownerId != userId {
        return Forbid;
      }
      context.RemoveGame(game.value);
      ApplyOne(old(context.db), GameRemoved(id));
      var saved := context.SaveChanges();
      r := NoContent;
    }
  }

  class AuthController {
    const context: GameContext
    const jwt: JwtSettings

    constructor (context: GameContext, jwt: JwtSettings)
      ensures this.context == context && this.jwt == jwt
    {
      this.context := context;
      this.jwt := jwt;
    }

    /**
     * POST api/auth/login: BadRequest on an invalid model state; otherwise
     * Unauthorized exactly when no user has that exact e-mail and password,
     * and Ok with a token for such a user when one has. The store is only read.
     */
    function Login(modelStateValid: bool, request: LoginRequest, now: int): (r: ActionResult<AuthResponse>)
      reads context
      requires context.Valid()
      ensures !modelStateValid ==> r == BadRequest(InvalidModelState)
      ensures modelStateValid ==>
                (r == Unauthorized <==>
                   forall i :: 0 <= i < |context.db.users| ==> !Matches(context.db.users[i], request.email, request.password))
      ensures modelStateValid ==>
                (r.Ok? <==>
                   exists i :: 0 <= i < |context.db.users| && Matches(context.db.users[i], request.email, request.password))
      ensures r.Ok? ==>
                exists i :: 0 <= i < |context.db.users| && Matches(context.db.users[i], request.email, request.password)
                            && r.body == AuthResponse(LoginSucceededMessage, GenerateToken(jwt, context.db.users[i], now))
      ensures r.Ok? || r.BadRequest? || r.Unauthorized?
    {
      if !modelStateValid then BadRequest(InvalidModelState)
      else
        match context.db.FirstUserWith(request.email, request.password)
        case None => Unauthorized
        case Some(user) => Ok(AuthResponse(LoginSucceededMessage, GenerateToken(jwt, user, now)))
    }

    /**
     * POST api/auth/register: BadRequest on an invalid model state; a null
     * e-mail in a request the framework passed fails on `ToLower` (it cannot
     * pass `[Required]`); an e-mail already present ignoring case is
     * BadRequest; none of these stores anything. Otherwise exactly one user is
     * stored (one Add, one SaveChanges) and the reply is Ok with a token for
     * it; afterwards that user can log in, and unique e-mails stay unique.
     */
    method Register(modelStateValid: bool, request: RegisterRequest, now: int) returns (r: ActionResult<AuthResponse>)
      requires context.Valid() && context.pending == []
      modifies context
      ensures context.Valid() && context.pending == []
      ensures !modelStateValid ==> r == BadRequest(InvalidModelState) && context.db == old(context.db)
      ensures modelStateValid && request.email.None? ==> r == InternalServerError && context.db == old(context.db)
      ensures modelStateValid && request.email.Some? && old(context.db).EmailTaken(request.email.value) ==>
                r == BadRequest(UserAlreadyExists) && context.db == old(context.db)
      ensures modelStateValid && request.email.Some? && !old(context.db).EmailTaken(request.email.value) ==>
                var user := User(old(context.db.nextUserId), request.email.value, request.password);
                && context.db == old(context.db).InsertUser(UserFrom(request))
                && r == Ok(AuthResponse(UserCreatedMessage, GenerateToken(jwt, user, now)))
                && forall later :: Login(true, LoginRequest(request.email, request.password), later)
                                   == Ok(AuthResponse(LoginSucceededMessage, GenerateToken(jwt, user, later)))
      ensures EmailsUnique(old(context.db.users)) ==> EmailsUnique(context.db.users)
    {
      if !modelStateValid {
        return BadRequest(InvalidModelState);
      }
      if request.email.None? {
        return InternalServerError;
      }
      if context.db.EmailTaken(request.email.value) {
        return BadRequest(UserAlreadyExists);
      }
      ghost var before := context.db;
      var user := UserFrom(request);
      // the key that saving assigns and writes back into the tracked entity
      var id := context.db.nextUserId;
      context.AddUser(user);
      ApplyOne(before, UserAdded(user));
      var saved := context.SaveChanges();
      RegisteredUserCanLogIn(before, request.email.value, request.password);
      if EmailsUnique(before.users) {
        InsertUserKeepsEmailsUnique(before, user);
      }
      r := Ok(AuthResponse(UserCreatedMessage, GenerateToken(jwt, user.(id := id), now)));
    }
  }

  /**
   * The two read-by-id paths differ: the service answers only the owner,
   * the controller answers anyone. On the same store the service's answer is
   * the controller's answer restricted to the caller's own games.
   */
  lemma GetByIdLayersDiffer(service: GameService, controller: GamesController, id: int, userId: int)
    requires service.repository.context == controller.context && controller.context.Valid()
    ensures service.GetByIdAsync(id, userId).Some? <==>
              controller.GetByIdAsync(id).Ok? && controller.GetByIdAsync(id).body.ownerId == userId
    ensures service.GetByIdAsync(id, userId).Some? ==>
              controller.GetByIdAsync(id) == Ok(service.GetByIdAsync(id, userId).value)
  {
  }

  /**
   * The two login paths agree once both fields are filled in and the model
   * state is valid: the same users are accepted and the same token is issued.
   */
  lemma LoginLayersAgree(service: AuthService, controller: AuthController, request: LoginRequest, now: int)
    requires service.context == controller.context && service.jwt == controller.jwt && controller.context.Valid()
    requires !IsNullOrWhiteSpace(request.email) && !IsNullOrWhiteSpace(request.password)
    ensures controller.Login(true, request, now).Ok? <==> service.LoginAsync(request, now).Returned?
    ensures controller.Login(true, request, now).Ok? ==>
              controller.Login(true, request, now).body == service.LoginAsync(request, now).value
  {
  }

  /**
   * A complete session on a fresh store: register, create a game with the
   * issued token, log in again, delete the game with the new token, and find
   * it gone.
   */
  method EndToEnd(jwt: JwtSettings, now: int)
    returns (registered: ActionResult<AuthResponse>, created: ActionResult<Game>,
             loggedIn: ActionResult<AuthResponse>, deleted: ActionResult<Game>, lookup: ActionResult<Game>)
    ensures registered.Ok? && registered.body.token.sub == 1
    ensures created.Created? && created.body.id == 1 && created.body.ownerId == 1
    ensures loggedIn.Ok? && loggedIn.body.token.sub == 1 && loggedIn.body.token != registered.body.token
    ensures deleted == NoContent && lookup == NotFound
  {
    var context := new GameContext();
    var auth := new AuthController(context, jwt);
    var games := new GamesController(context);
    registered := auth.Register(true, RegisterRequest(Some("a@x.com"), Some("secret1")), now);
    var caller := ValidateToken(jwt, registered.body.token, now + 1);
    created := games.Create(true, CreateGameRequest(Some("Doom"), None, Some("http://x"), None,
                                                    Some("classic shooter game"), Some("http://s")), caller.value);
    loggedIn := auth.Login(true, LoginRequest(Some("a@x.com"), Some("secret1")), now + 60);
    var second := ValidateToken(jwt, loggedIn.body.token, now + 120);
    deleted := games.Delete(created.body.id, second.value);
    lookup := games.GetByIdAsync(created.body.id);
  }
}
