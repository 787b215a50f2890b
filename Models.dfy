/**
 * The entities and request bodies of the game library, and the field copies
 * its object mapper performs between them.
 */
module Models {
  import opened Base

  /** A .NET `string` reference, which may be null. */
  type Str = Option<string>

  /**
   * A stored game. `price` stands for the optional `decimal` price, which no
   * operation of the core computes with.
   */
  datatype Game = Game(
    id: int,
    name: Str,
    studio: Str,
    coverImageUrl: Str,
    price: Option<real>,
    description: Str,
    steamLink: Str,
    ownerId: int)

  /**
   * A registered user. Every path that inserts a user has dereferenced the
   * e-mail first, so a stored e-mail is never null; the password may be.
   */
  datatype User = User(id: int, email: string, password: Str)

  /** The body of POST api/games. It has no `Id` and no `OwnerId`. */
  datatype CreateGameRequest = CreateGameRequest(
    name: Str,
    studio: Str,
    coverImageUrl: Str,
    price: Option<real>,
    description: Str,
    steamLink: Str)

  /** The body of PUT api/games/{id}. It has no `Id` and no `OwnerId`. */
  datatype UpdateGameRequest = UpdateGameRequest(
    name: Str,
    studio: Str,
    coverImageUrl: Str,
    price: Option<real>,
    description: Str,
    steamLink: Str)

  datatype RegisterRequest = RegisterRequest(email: Str, password: Str)

  datatype LoginRequest = LoginRequest(email: Str, password: Str)

  /**
   * `CreateMap<CreateGameRequest, Game>()`: a new, not yet saved entity whose
   * key and owner are still the default 0 and whose other fields are the
   * request's.
   */
  function GameFrom(request: CreateGameRequest): (g: Game)
    ensures g.id == 0 && g.ownerId == 0
    ensures g.name == request.name && g.coverImageUrl == request.coverImageUrl
    ensures g.description == request.description
    ensures g.studio == request.studio && g.price == request.price && g.steamLink == request.steamLink
  {
    Game(0, request.name, request.studio, request.coverImageUrl, request.price,
         request.description, request.steamLink, 0)
  }

  /**
   * `_mapper.Map(request, game)` with `CreateMap<UpdateGameRequest, Game>()`:
   * the map has no null-skip condition, so every member the request has is
   * copied, null or not. The request has no `Id` and no `OwnerId`, so those
   * two are the only fields of the old record that survive.
   */
  function MapOnto(request: UpdateGameRequest, game: Game): (g: Game)
    ensures g.id == game.id && g.ownerId == game.ownerId
    ensures g.name == request.name && g.description == request.description
    ensures g.coverImageUrl == request.coverImageUrl
    ensures g.studio == request.studio && g.price == request.price && g.steamLink == request.steamLink
  {
    Game(game.id, request.name, request.studio, request.coverImageUrl, request.price,
         request.description, request.steamLink, game.ownerId)
  }

  /**
   * Updating two records with the same key and owner gives the same record:
   * nothing else of the old record is kept. In particular, in the mapped
   * record, an update whose description is null has a null description.
   */
  lemma MapOntoKeepsOnlyKeyAndOwner(request: UpdateGameRequest, a: Game, b: Game)
    requires a.id == b.id && a.ownerId == b.ownerId
    ensures MapOnto(request, a) == MapOnto(request, b)
    ensures request.description.None? ==> MapOnto(request, a).description.None?
  {
  }

  /** `CreateMap<RegisterRequest, User>()`: a new user, key still 0. */
  function UserFrom(request: RegisterRequest): (u: User)
    requires request.email.Some?
    ensures u.id == 0 && Some(u.email) == request.email && u.password == request.password
  {
    User(0, request.email.value, request.password)
  }
}
