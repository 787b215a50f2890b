/**
 * The service layer: `GameService` over the game repository and
 * `AuthService` over the users table. Both validate their input explicitly
 * and report a rejected request by throwing an `ArgumentException`.
 */
module Services {
  import opened Base
  import opened Models
  import opened Data
  import opened Repositories
  import opened Jwt

  /** The `ArgumentException`s the services throw, one per message. */
  datatype Fault =
    // CreateAsync
    | NameInvalid             // name required, at least 3 characters
    | CoverImageUrlRequired   // cover URL required
    | DescriptionInvalid      // description required, at least 10 characters
    // UpdateAsync
    | NameTooShort            // a given name has at least 3 characters
    | CoverImageUrlBlank      // a given cover URL is not blank
    | DescriptionTooShort     // a given description has at least 10 characters
    // RegisterAsync
    | EmailInvalid            // e-mail required and containing '@'
    | PasswordInvalid         // password required, at least 6 characters
    | UserExists              // "Usuário já existe."
    // LoginAsync
    | EmailRequired
    | PasswordRequired
    | BadCredentials          // "Usuário ou senha inválidos."

  /** A service call either returns a value or throws. */
  datatype Outcome<T> = Returned(value: T) | Threw(fault: Fault)

  const MinNameLength: int := 3
  const MinDescriptionLength: int := 10
  const MinPasswordLength: int := 6

  /** The `Message` and `Token` of a register or login response. */
  datatype AuthResponse = AuthResponse(message: string, token: Token)

  const UserCreatedMessage: string := "Usuário criado com sucesso!"
  const LoginSucceededMessage: string := "Login realizado com sucesso!"

  // ---------------------------------------------------------------------
  // Game validation

  /** Text that is present, not blank, and at least `min` characters long. */
  predicate Filled(s: Str, min: int) {
    !IsNullOrWhiteSpace(s) && |s.value| >= min
  }

  /** Text that is either left out (null or blank) or at least `min` characters long. */
  predicate BlankOrLongEnough(s: Str, min: int) {
    IsNullOrWhiteSpace(s) || |s.value| >= min
  }

  /**
   * The checks of `CreateAsync`, in order: the name, then the cover URL,
   * then the description. The first failing one is reported.
   */
  function CreateFault(request: CreateGameRequest): (r: Option<Fault>)
    ensures r.None? <==> Filled(request.name, MinNameLength) && !IsNullOrWhiteSpace(request.coverImageUrl)
                         && Filled(request.description, MinDescriptionLength)
    ensures r == Some(NameInvalid) <==> !Filled(request.name, MinNameLength)
    ensures r == Some(CoverImageUrlRequired) <==> Filled(request.name, MinNameLength)
                                                  && IsNullOrWhiteSpace(request.coverImageUrl)
    ensures r.Some? ==> r.value == NameInvalid || r.value == CoverImageUrlRequired || r.value == DescriptionInvalid
  {
    if IsNullOrWhiteSpace(request.name) || |request.name.value| < MinNameLength then Some(NameInvalid)
    else if IsNullOrWhiteSpace(request.coverImageUrl) then Some(CoverImageUrlRequired)
    else if IsNullOrWhiteSpace(request.description) || |request.description.value| < MinDescriptionLength
    then Some(DescriptionInvalid)
    else None
  }

  /**
   * The checks of `UpdateAsync`, in order: a name that is not blank has at
   * least 3 characters, a cover URL that is not null is not blank, and a
   * description that is not blank has at least 10 characters.
   */
  function UpdateFault(request: UpdateGameRequest): (r: Option<Fault>)
    ensures r.None? <==> BlankOrLongEnough(request.name, MinNameLength)
                         && (request.coverImageUrl.Some? ==> !IsNullOrWhiteSpace(request.coverImageUrl))
                         && BlankOrLongEnough(request.description, MinDescriptionLength)
    ensures r == Some(NameTooShort) <==> !BlankOrLongEnough(request.name, MinNameLength)
    ensures r == Some(CoverImageUrlBlank) <==> BlankOrLongEnough(request.name, MinNameLength)
                                               && request.coverImageUrl.Some? && IsNullOrWhiteSpace(request.coverImageUrl)
    ensures r.Some? ==> r.value == NameTooShort || r.value == CoverImageUrlBlank || r.value == DescriptionTooShort
  {
    if !IsNullOrWhiteSpace(request.name) && |request.name.value| < MinNameLength then Some(NameTooShort)
    else if request.coverImageUrl.Some? && IsNullOrWhiteSpace(request.coverImageUrl) then Some(CoverImageUrlBlank)
    else if !IsNullOrWhiteSpace(request.description) && |request.description.value| < MinDescriptionLength
    then Some(DescriptionTooShort)
    else None
  }

  /** The update request that carries the same fields as a create request. */
  function AsUpdate(request: CreateGameRequest): UpdateGameRequest {
    UpdateGameRequest(request.name, request.studio, request.coverImageUrl, request.price,
                      request.description, request.steamLink)
  }

  /** Whatever `CreateAsync` accepts, `UpdateAsync`'s checks accept too. */
  lemma CreateRulesImplyUpdateRules(request: CreateGameRequest)
    ensures CreateFault(request).None? ==> UpdateFault(AsUpdate(request)).None?
  {
  }

  /**
   * The converse fails: `UpdateAsync` lets a blank name through (it counts as
   * "not given"), and the mapper then stores it, although `CreateAsync`
   * rejects it.
   */
  lemma UpdateAcceptsBlankName(game: Game)
    ensures var request := UpdateGameRequest(Some("   "), None, Some("http://x"), None,
                                             Some("classic shooter game"), None);
            && UpdateFault(request).None?
            && CreateFault(CreateGameRequest(request.name, None, request.coverImageUrl, None,
                                             request.description, None)) == Some(NameInvalid)
            && MapOnto(request, game).name == Some("   ")
  {
    var desc := "classic shooter game";
    assert desc[0] == 'c';
    NotBlank(desc, 0);
    var url := "http://x";
    assert url[0] == 'h';
    NotBlank(url, 0);
  }

  // ---------------------------------------------------------------------
  // GameService

  class GameService {
    const repository: GameRepository

    constructor (repository: GameRepository)
      ensures this.repository == repository
    {
      this.repository := repository;
    }

    /**
     * `GetByIdAsync(id, userId)`: the game with that key when it exists and
     * the caller owns it; null otherwise.
     */
    function GetByIdAsync(id: int, userId: int): (r: Option<Game>)
      reads repository.context
      requires repository.context.Valid()
      ensures r.Some? <==> repository.context.db.IsOwner(id, userId)
      ensures r.Some? ==> r.value.id == id && r.value.ownerId == userId && repository.context.db.Stored(r.value)
    {
      var game := repository.GetByIdAsync(id);
      if game.None? || game.value.ownerId != userId then None else game
    }

    /** `GetAllAsync()`: every stored game, unfiltered, each once. */
    function GetAllAsync(): (r: seq<Game>)
      reads repository.context
      requires repository.context.Valid()
      ensures forall g :: g in r <==> repository.context.db.Stored(g)
      ensures |r| == |repository.context.db.games|
    {
      repository.GetAllAsync()
    }

    /** `GetMyGamesAsync(userId)`: exactly the stored games the caller owns. */
    function GetMyGamesAsync(userId: int): (r: seq<Game>)
      reads repository.context
      requires repository.context.Valid()
      ensures forall g :: g in r <==> repository.context.db.Stored(g) && g.ownerId == userId
    {
      repository.GetByOwnerIdAsync(userId)
    }

    /**
     * `CreateAsync(request, userId)`: a rejected request throws the first
     * failing check and stores nothing; otherwise exactly one game is stored,
     * under the next key and owned by the caller, whatever else the request
     * says, and it joins the end of the caller's listing.
     */
    method CreateAsync(request: CreateGameRequest, userId: int) returns (r: Outcome<Game>)
      requires repository.context.Valid() && repository.context.pending == []
      modifies repository.context
      ensures repository.context.Valid() && repository.context.pending == []
      ensures CreateFault(request).Some? ==>
                r == Threw(CreateFault(request).value) && repository.context.db == old(repository.context.db)
      ensures CreateFault(request).None? ==>
                && r == Returned(GameFrom(request).(id := old(repository.context.db.nextGameId), ownerId := userId))
                && repository.context.db == old(repository.context.db).InsertGame(GameFrom(request).(ownerId := userId))
                && GetMyGamesAsync(userId) == old(GetMyGamesAsync(userId)) + [r.value]
    {
      var fault := CreateFault(request);
      if fault.Some? {
        return Threw(fault.value);
      }
      ghost var before := repository.context.db;
      var game := GameFrom(request).(ownerId := userId);
      // the key that saving assigns and writes back into the tracked entity
      var id := repository.context.db.nextGameId;
      repository.AddAsync(game);
      ApplyOne(before, GameAdded(game));
      var saved := repository.SaveChangesAsync();
      InsertGameExtendsGamesOf(before, game, userId);
      r := Returned(game.(id := id));
    }

    /**
     * `UpdateAsync(id, request, userId)`: false, with nothing changed, when
     * the game is missing or another user's, before any check of the request;
     * then a rejected request throws and changes nothing; otherwise the row is
     * overwritten with the request's fields, keeping its key and owner.
     */
    method UpdateAsync(id: int, request: UpdateGameRequest, userId: int) returns (r: Outcome<bool>)
      requires repository.context.Valid() && repository.context.pending == []
      modifies repository.context
      ensures repository.context.Valid() && repository.context.pending == []
      ensures !old(repository.context.db).IsOwner(id, userId) ==>
                r == Returned(false) && repository.context.db == old(repository.context.db)
      ensures old(repository.context.db).IsOwner(id, userId) && UpdateFault(request).Some? ==>
                r == Threw(UpdateFault(request).value) && repository.context.db == old(repository.context.db)
      ensures old(repository.context.db).IsOwner(id, userId) && UpdateFault(request).None? ==>
                && r == Returned(true)
                && repository.context.db
                   == old(repository.context.db).ReplaceGame(MapOnto(request, old(repository.context.db).games[id]))
    {
      var game := repository.GetByIdAsync(id);
      if game.None? || game.value.ownerId != userId {
        return Returned(false);
      }
      var fault := UpdateFault(request);
      if fault.Some? {
        return Threw(fault.value);
      }
      var updated := MapOnto(request, game.value);
      repository.Update(updated);
      ApplyOne(old(repository.context.db), GameUpdated(updated));
      var saved := repository.SaveChangesAsync();
      r := Returned(true);
    }

    /**
     * `DeleteAsync(id, userId)`: true exactly when the game exists and the
     * caller owns it, and then exactly that game is removed; otherwise false
     * with nothing changed, so a refused caller is refused again on retry.
     */
    method DeleteAsync(id: int, userId: int) returns (r: bool)
      requires repository.context.Valid() && repository.context.pending == []
      modifies repository.context
      ensures repository.context.Valid() && repository.context.pending == []
      ensures r == old(repository.context.db).IsOwner(id, userId)
      ensures !r ==> repository.context.db == old(repository.context.db)
      ensures r ==> repository.context.db == old(repository.context.db).DeleteGame(id)
    {
      var game := repository.GetByIdAsync(id);
      if game.None? || game.value.ownerId != userId {
        return false;
      }
      repository.Delete(game.value);
      ApplyOne(old(repository.context.db), GameRemoved(id));
      var saved := repository.SaveChangesAsync();
      r := true;
    }
  }

  // ---------------------------------------------------------------------
  // Auth validation and AuthService

  /** The e-mail check of `RegisterAsync`: present, not blank, containing '@'. */
  predicate EmailAcceptable(email: Str) {
    !IsNullOrWhiteSpace(email) && '@' in email.value
  }

  /** The password check of `RegisterAsync`: present, not blank, at least 6 characters. */
  predicate PasswordAcceptable(password: Str) {
    Filled(password, MinPasswordLength)
  }

  class AuthService {
    const context: GameContext
    const jwt: JwtSettings

    constructor (context: GameContext, jwt: JwtSettings)
      ensures this.context == context && this.jwt == jwt
    {
      this.context := context;
      this.jwt := jwt;
    }

    /**
     * `LoginAsync(request)`: a blank e-mail, then a blank password, is
     * rejected; otherwise it succeeds exactly when some user has that exact
     * e-mail and password, and then returns a token issued for such a user.
     * It reads the store and never changes it.
     */
    function LoginAsync(request: LoginRequest, now: int): (r: Outcome<AuthResponse>)
      reads context
      requires context.Valid()
      ensures r == Threw(EmailRequired) <==> IsNullOrWhiteSpace(request.email)
      ensures r == Threw(PasswordRequired) <==> !IsNullOrWhiteSpace(request.email) && IsNullOrWhiteSpace(request.password)
      ensures r == Threw(BadCredentials) <==>
                && !IsNullOrWhiteSpace(request.email) && !IsNullOrWhiteSpace(request.password)
                && forall i :: 0 <= i < |context.db.users| ==> !Matches(context.db.users[i], request.email, request.password)
      ensures !IsNullOrWhiteSpace(request.email) && !IsNullOrWhiteSpace(request.password) ==>
                (r.Returned? <==>
                   exists i :: 0 <= i < |context.db.users| && Matches(context.db.users[i], request.email, request.password))
      ensures r.Returned? ==>
                exists i :: 0 <= i < |context.db.users| && Matches(context.db.users[i], request.email, request.password)
                            && r.value == AuthResponse(LoginSucceededMessage, GenerateToken(jwt, context.db.users[i], now))
    {
      if IsNullOrWhiteSpace(request.email) then Threw(EmailRequired)
      else if IsNullOrWhiteSpace(request.password) then Threw(PasswordRequired)
      else
        match context.db.FirstUserWith(request.email, request.password)
        case None => Threw(BadCredentials)
        case Some(user) => Returned(AuthResponse(LoginSucceededMessage, GenerateToken(jwt, user, now)))
    }

    /**
     * `RegisterAsync(request)`: the e-mail check, then the password check,
     * then uniqueness ignoring case; every rejection happens before the insert
     * and stores nothing. Otherwise exactly one user is stored and the reply
     * carries a token for it; afterwards that user can log in with the same
     * credentials, and e-mails that were unique stay unique.
     */
    method RegisterAsync(request: RegisterRequest, now: int) returns (r: Outcome<AuthResponse>)
      requires context.Valid() && context.pending == []
      modifies context
      ensures context.Valid() && context.pending == []
      ensures !EmailAcceptable(request.email) ==> r == Threw(EmailInvalid) && context.db == old(context.db)
      ensures EmailAcceptable(request.email) && !PasswordAcceptable(request.password) ==>
                r == Threw(PasswordInvalid) && context.db == old(context.db)
      ensures EmailAcceptable(request.email) && PasswordAcceptable(request.password)
              && old(context.db).EmailTaken(request.email.value) ==>
                r == Threw(UserExists) && context.db == old(context.db)
      ensures EmailAcceptable(request.email) && PasswordAcceptable(request.password)
              && !old(context.db).EmailTaken(request.email.value) ==>
                var user := User(old(context.db.nextUserId), request.email.value, request.password);
                && context.db == old(context.db).InsertUser(UserFrom(request))
                && r == Returned(AuthResponse(UserCreatedMessage, GenerateToken(jwt, user, now)))
                && forall later :: LoginAsync(LoginRequest(request.email, request.password), later)
                                   == Returned(AuthResponse(LoginSucceededMessage, GenerateToken(jwt, user, later)))
      ensures EmailsUnique(old(context.db.users)) ==> EmailsUnique(context.db.users)
    {
      if IsNullOrWhiteSpace(request.email) || '@' !in request.email.value {
        return Threw(EmailInvalid);
      }
      if IsNullOrWhiteSpace(request.password) || |request.password.value| < MinPasswordLength {
        return Threw(PasswordInvalid);
      }
      if context.db.EmailTaken(request.email.value) {
        return Threw(UserExists);
      }
      ghost var before := context.db;
      var user := UserFrom(request);
      // the key that saving assigns and writes back into the tracked entity
      var id := context.db.nextUserId;
      context.AddUser(user);
      ApplyOne(before, UserAdded(user));
      var saved := context.SaveChanges();
      RegisteredUserCanLogIn(before, request.email.value, request.password);
      if EmailsUnique(before.users) {
        InsertUserKeepsEmailsUnique(before, user);
      }
      r := Returned(AuthResponse(UserCreatedMessage, GenerateToken(jwt, user.(id := id), now)));
    }
  }
}
