/**
 * `GameRepository`: the game table behind the service layer. The three
 * getters read the committed table; `AddAsync`, `Update` and `Delete` record
 * a change that `SaveChangesAsync` commits.
 */
module Repositories {
  import opened Base
  import opened Models
  import opened Data

  class GameRepository {
    const context: GameContext

    constructor (context: GameContext)
      ensures this.context == context
    {
      this.context := context;
    }

    /** `GetByIdAsync(id)`: the stored game with that key, or null when none has it. */
    function GetByIdAsync(id: int): (r: Option<Game>)
      reads context
      requires context.Valid()
      ensures r.Some? <==> id in context.db.games
      ensures r.Some? ==> r.value == context.db.games[id] && r.value.id == id
      ensures r.Some? <==> exists g :: g in GetAllAsync() && g.id == id
    {
      context.db.Find(id)
    }

    /** `GetAllAsync()`: every stored game exactly once, and nothing else. */
    function GetAllAsync(): (r: seq<Game>)
      reads context
      requires context.Valid()
      ensures forall g :: g in r <==> context.db.Stored(g)
      ensures forall id :: id in context.db.games ==> context.db.games[id] in r
      ensures |r| == |context.db.games|
    {
      context.db.AllGames()
    }

    /**
     * `GetByOwnerIdAsync(ownerId)`: every stored game owned by `ownerId`, and
     * no other game.
     */
    function GetByOwnerIdAsync(ownerId: int): (r: seq<Game>)
      reads context
      requires context.Valid()
      ensures forall g :: g in r ==> context.db.Stored(g) && g.ownerId == ownerId
      ensures forall id :: id in context.db.games && context.db.games[id].ownerId == ownerId
                ==> context.db.games[id] in r
    {
      context.db.GamesOf(ownerId)
    }

    /** `AddAsync(game)`: the game is tracked for insertion; the table is unchanged until saved. */
    method AddAsync(game: Game)
      modifies context
      ensures context.db == old(context.db)
      ensures context.pending == old(context.pending) + [GameAdded(game)]
    {
      context.AddGame(game);
    }

    /**
     * `Update(game)`: the row with the game's key is to be replaced; a game
     * whose store-generated key is still unset (0) is to be inserted instead.
     */
    method Update(game: Game)
      modifies context
      ensures context.db == old(context.db)
      ensures context.pending == old(context.pending) + [if game.id == 0 then GameAdded(game) else GameUpdated(game)]
    {
      context.UpdateGame(game);
    }

    /** `Delete(game)`: the row with the game's key is to be removed. */
    method Delete(game: Game)
      modifies context
      ensures context.db == old(context.db)
      ensures context.pending == old(context.pending) + [GameRemoved(game.id)]
    {
      context.RemoveGame(game);
    }

    /** `SaveChangesAsync()`: commits the tracked changes, all or nothing. */
    method SaveChangesAsync() returns (saved: bool)
      requires context.Valid()
      modifies context
      ensures context.Valid()
      ensures saved == Apply(old(context.db), old(context.pending)).Some?
      ensures saved ==> context.db == Apply(old(context.db), old(context.pending)).value
                        && context.pending == []
      ensures !saved ==> context.db == old(context.db) && context.pending == old(context.pending)
    {
      saved := context.SaveChanges();
    }
  }

  /**
   * `AddAsync` then `SaveChangesAsync` on a context with nothing pending: the
   * game is stored under the next key, owned as it was, and no other game
   * changes.
   */
  method AddThenSave(repository: GameRepository, game: Game) returns (id: int)
    requires repository.context.Valid() && repository.context.pending == []
    modifies repository.context
    ensures repository.context.Valid() && repository.context.pending == []
    ensures id == old(repository.context.db.nextGameId)
    ensures repository.GetByIdAsync(id) == Some(game.(id := id))
    ensures forall k :: k != id ==> repository.GetByIdAsync(k) == old(repository.GetByIdAsync(k))
    ensures repository.context.db == old(repository.context.db).InsertGame(game)
  {
    id := repository.context.db.nextGameId;
    repository.AddAsync(game);
    ApplyOne(repository.context.db, GameAdded(game));
    var saved := repository.SaveChangesAsync();
  }

  /**
   * `Update` then `SaveChangesAsync` on a context with nothing pending: a game
   * whose key is unset (0) is inserted under the next key, as `AddThenSave`
   * does. Otherwise, when the game's key is stored, exactly that record is
   * replaced; when it is not, the save fails (a concurrency exception) and
   * the stored games are unchanged. No other game ever changes.
   */
  method UpdateThenSave(repository: GameRepository, game: Game) returns (saved: bool)
    requires repository.context.Valid() && repository.context.pending == []
    modifies repository.context
    ensures repository.context.Valid()
    ensures saved <==> game.id == 0 || game.id in old(repository.context.db.games)
    ensures game.id == 0 ==> && repository.context.db == old(repository.context.db).InsertGame(game)
                             && repository.GetByIdAsync(old(repository.context.db.nextGameId))
                                == Some(game.(id := old(repository.context.db.nextGameId)))
                             && repository.context.pending == []
    ensures game.id == 0 ==> forall k :: k != old(repository.context.db.nextGameId) ==>
                                 repository.GetByIdAsync(k) == old(repository.GetByIdAsync(k))
    ensures game.id != 0 && saved ==> && repository.GetByIdAsync(game.id) == Some(game)
                                      && repository.context.db == old(repository.context.db).ReplaceGame(game)
                                      && repository.context.pending == []
    ensures game.id != 0 ==> forall k :: k != game.id ==> repository.GetByIdAsync(k) == old(repository.GetByIdAsync(k))
    ensures !saved ==> repository.context.db == old(repository.context.db)
  {
    repository.Update(game);
    ApplyOne(repository.context.db, if game.id == 0 then GameAdded(game) else GameUpdated(game));
    saved := repository.SaveChangesAsync();
  }

  /**
   * `Delete` then `SaveChangesAsync` on a context with nothing pending: when
   * the game's key is stored, exactly that game is gone and no other game
   * changes; otherwise the save fails and the stored games are unchanged.
   */
  method DeleteThenSave(repository: GameRepository, game: Game) returns (saved: bool)
    requires repository.context.Valid() && repository.context.pending == []
    modifies repository.context
    ensures repository.context.Valid()
    ensures saved <==> game.id in old(repository.context.db.games)
    ensures saved ==> && repository.GetByIdAsync(game.id).None?
                      && repository.context.db == old(repository.context.db).DeleteGame(game.id)
                      && repository.context.pending == []
    ensures forall k :: k != game.id ==> repository.GetByIdAsync(k) == old(repository.GetByIdAsync(k))
    ensures !saved ==> repository.context.db == old(repository.context.db)
  {
    repository.Delete(game);
    ApplyOne(repository.context.db, GameRemoved(game.id));
    saved := repository.SaveChangesAsync();
  }
}
