/**
 * The database context: the two tables (games keyed by id, users in insertion
 * order), the counters from which the store assigns new keys, and the change
 * tracker whose pending changes `SaveChanges` commits.
 */
module Data {
  import opened Base
  import opened Models

  /** A change recorded by the tracker and committed by `SaveChanges`. */
  datatype Change =
    | GameAdded(game: Game)      // Games.Add / Games.AddAsync
    | GameUpdated(game: Game)    // Games.Update, or a modified tracked entity
    | GameRemoved(id: int)       // Games.Remove, by key
    | UserAdded(user: User)      // Users.Add

  /** The outcome of the ownership check on a game key. */
  datatype Access = Missing | NotOwner | Granted

  /** Games whose keys strictly increase along the sequence (primary-key order). */
  predicate KeyOrdered(s: seq<Game>) {
    forall j, k :: 0 <= j < k < |s| ==> s[j].id < s[k].id
  }

  /** The committed contents of the store. */
  datatype Database = Database(games: map<int, Game>, users: seq<User>, nextGameId: int, nextUserId: int)
  {
    /**
     * Every game is stored under its own key, keys are below the next key to
     * assign, and user keys increase in insertion order.
     */
    ghost predicate Valid() {
      && 1 <= nextGameId && 1 <= nextUserId
      && (forall id :: id in games ==> 1 <= id < nextGameId && games[id].id == id)
      && (forall i :: 0 <= i < |users| ==> 1 <= users[i].id < nextUserId)
      && (forall i, j :: 0 <= i < j < |users| ==> users[i].id < users[j].id)
    }

    /** `g` is the row stored under its own key. */
    predicate Stored(g: Game) {
      g.id in games && games[g.id] == g
    }

    ghost function KeysFrom(lo: int): set<int> {
      set id | id in games && lo <= id
    }

    /** The rows with key at least `lo`, in key order. */
    function Rows(lo: int): seq<Game>
      requires Valid()
      decreases nextGameId - lo
    {
      if lo >= nextGameId then []
      else (if lo in games then [games[lo]] else []) + Rows(lo + 1)
    }

    /**
     * `Games.ToListAsync()`: every stored game exactly once, in key order.
     */
    function AllGames(): (r: seq<Game>)
      requires Valid()
      ensures forall g :: g in r <==> Stored(g)
      ensures KeyOrdered(r)
      ensures |r| == |games|
    {
      RowsContents(this, 1);
      RowsOrdered(this, 1);
      RowsCount(this, 1);
      assert KeysFrom(1) == games.Keys;
      Rows(1)
    }

    /**
     * `Games.FindAsync(id)`: the listed game with that key, or null when no
     * listed game has it.
     */
    function Find(id: int): (r: Option<Game>)
      requires Valid()
      ensures r.Some? ==> r.value in AllGames() && r.value.id == id
      ensures r.None? ==> forall g :: g in AllGames() ==> g.id != id
    {
      if id in games then Some(games[id]) else None
    }

    /** `Games.Where(g => g.OwnerId == owner).ToListAsync()`. */
    function GamesOf(owner: int): (r: seq<Game>)
      requires Valid()
      ensures forall g :: g in r <==> Stored(g) && g.ownerId == owner
      ensures KeyOrdered(r)
    {
      WhereOwner(AllGames(), owner)
    }

    predicate IsOwner(id: int, userId: int) {
      id in games && games[id].ownerId == userId
    }

    /** The ownership check, existence first: a missing key, another owner, or the caller. */
    function Authorize(id: int, userId: int): (r: Access)
      ensures r == Missing <==> id !in games
      ensures r == Granted <==> IsOwner(id, userId)
    {
      if id !in games then Missing
      else if games[id].ownerId != userId then NotOwner
      else Granted
    }

    /** Committing an added game: it is stored under the next key; nothing else changes. */
    function InsertGame(g: Game): (r: Database)
      requires Valid()
      ensures r.Valid()
      ensures r.Find(nextGameId) == Some(g.(id := nextGameId))
      ensures forall id :: id != nextGameId ==> r.Find(id) == Find(id)
      ensures |r.games| == |games| + 1
      ensures r.users == users && r.nextUserId == nextUserId && r.nextGameId == nextGameId + 1
    {
      assert nextGameId !in games;
      Database(games[nextGameId := g.(id := nextGameId)], users, nextGameId + 1, nextUserId)
    }

    /** Committing an updated game: its row becomes `g`; nothing else changes. */
    function ReplaceGame(g: Game): (r: Database)
      requires Valid() && g.id in games
      ensures r.Valid()
      ensures r.Find(g.id) == Some(g)
      ensures forall id :: id != g.id ==> r.Find(id) == Find(id)
      ensures |r.games| == |games|
      ensures r.users == users && r.nextUserId == nextUserId && r.nextGameId == nextGameId
    {
      Database(games[g.id := g], users, nextGameId, nextUserId)
    }

    /** Committing a removal: that key is gone; nothing else changes. */
    function DeleteGame(id: int): (r: Database)
      requires Valid() && id in games
      ensures r.Valid()
      ensures r.Find(id).None?
      ensures forall k :: k != id ==> r.Find(k) == Find(k)
      ensures |r.games| == |games| - 1
      ensures r.users == users && r.nextUserId == nextUserId && r.nextGameId == nextGameId
    {
      Database(games - {id}, users, nextGameId, nextUserId)
    }

    /** Committing an added user: exactly one user, under the next key, joins the end of the table. */
    function InsertUser(u: User): (r: Database)
      requires Valid()
      ensures r.Valid()
      ensures r.users == users + [u.(id := nextUserId)]
      ensures r.games == games && r.nextGameId == nextGameId && r.nextUserId == nextUserId + 1
    {
      Database(games, users + [u.(id := nextUserId)], nextGameId, nextUserId + 1)
    }

    /** `Users.AnyAsync(u => u.Email.ToLower() == email.ToLower())`. */
    predicate EmailTaken(email: string) {
      exists i :: 0 <= i < |users| && EqualsIgnoringCase(users[i].email, email)
    }

    /** `Users.FirstOrDefaultAsync(u => u.Email == email && u.Password == password)`. */
    function FirstUserWith(email: Str, password: Str): Option<User> {
      FirstMatch(users, email, password)
    }
  }

  /** `Rows(lo)` holds exactly the stored games with key at least `lo`. */
  lemma {:induction false} RowsContents(db: Database, lo: int)
    requires db.Valid()
    decreases db.nextGameId - lo
    ensures forall g :: g in db.Rows(lo) <==> db.Stored(g) && lo <= g.id
  {
    if lo < db.nextGameId {
      RowsContents(db, lo + 1);
    }
  }

  /** `Rows(lo)` is in strictly increasing key order. */
  lemma {:induction false} RowsOrdered(db: Database, lo: int)
    requires db.Valid()
    decreases db.nextGameId - lo
    ensures KeyOrdered(db.Rows(lo))
  {
    if lo < db.nextGameId {
      RowsOrdered(db, lo + 1);
      RowsContents(db, lo + 1);
      var rest := db.Rows(lo + 1);
      if lo in db.games {
        var r := [db.games[lo]] + rest;
        forall j, k | 0 <= j < k < |r| ensures r[j].id < r[k].id {
          assert r[k] == rest[k - 1] && rest[k - 1] in rest;
          if j > 0 {
            assert r[j] == rest[j - 1];
          }
        }
      }
    }
  }

  /** `Rows(lo)` has one entry per stored key at least `lo`. */
  lemma {:induction false} RowsCount(db: Database, lo: int)
    requires db.Valid()
    decreases db.nextGameId - lo
    ensures |db.Rows(lo)| == |db.KeysFrom(lo)|
  {
    if lo < db.nextGameId {
      RowsCount(db, lo + 1);
      assert db.KeysFrom(lo) == (if lo in db.games then {lo} else {}) + db.KeysFrom(lo + 1);
    } else {
      assert db.KeysFrom(lo) == {};
    }
  }

  /** The games of `s` that `owner` owns, in the order of `s`. */
  function WhereOwner(s: seq<Game>, owner: int): (r: seq<Game>)
    ensures forall g :: g in r <==> g in s && g.ownerId == owner
    ensures |r| <= |s|
    ensures KeyOrdered(s) ==> KeyOrdered(r)
  {
    if s == [] then []
    else
      var rest := WhereOwner(s[1..], owner);
      if s[0].ownerId == owner then [s[0]] + rest else rest
  }

  /** Filtering a sequence extended by one game extends the filtered sequence by at most that game. */
  lemma {:induction false} WhereOwnerAppend(s: seq<Game>, x: Game, owner: int)
    ensures WhereOwner(s + [x], owner) == WhereOwner(s, owner) + (if x.ownerId == owner then [x] else [])
  {
    if s != [] {
      assert (s + [x])[1..] == s[1..] + [x];
      WhereOwnerAppend(s[1..], x, owner);
    }
  }

  /** Rows of the store after an insert: the old rows, then the new game. */
  lemma {:induction false} RowsAfterInsert(db: Database, g: Game, lo: int)
    requires db.Valid() && lo <= db.nextGameId
    decreases db.nextGameId - lo
    ensures db.InsertGame(g).Rows(lo) == db.Rows(lo) + [g.(id := db.nextGameId)]
  {
    var r := db.InsertGame(g);
    if lo < db.nextGameId {
      RowsAfterInsert(db, g, lo + 1);
      assert (lo in r.games) == (lo in db.games);
      assert lo in db.games ==> r.games[lo] == db.games[lo];
    } else {
      assert r.Rows(lo + 1) == [];
    }
  }

  /** Listing the store after an insert gives the old listing followed by the new game. */
  lemma InsertGameAppendsRow(db: Database, g: Game)
    requires db.Valid()
    ensures db.InsertGame(g).AllGames() == db.AllGames() + [g.(id := db.nextGameId)]
  {
    RowsAfterInsert(db, g, 1);
  }

  /**
   * After an insert, an owner's listing is the old one, followed by the new
   * game when that owner owns it.
   */
  lemma InsertGameExtendsGamesOf(db: Database, g: Game, owner: int)
    requires db.Valid()
    ensures db.InsertGame(g).GamesOf(owner)
            == db.GamesOf(owner) + (if g.ownerId == owner then [g.(id := db.nextGameId)] else [])
  {
    InsertGameAppendsRow(db, g);
    WhereOwnerAppend(db.AllGames(), g.(id := db.nextGameId), owner);
  }

  /** The exact-match condition of the login query (C# string equality, null included). */
  predicate Matches(u: User, email: Str, password: Str) {
    Some(u.email) == email && u.password == password
  }

  /** The first user in table order that matches, or null when none does. */
  function FirstMatch(users: seq<User>, email: Str, password: Str): (r: Option<User>)
    ensures r.Some? <==> exists i :: 0 <= i < |users| && Matches(users[i], email, password)
    ensures r.Some? ==> exists i :: 0 <= i < |users| && users[i] == r.value && Matches(users[i], email, password)
                                    && forall j :: 0 <= j < i ==> !Matches(users[j], email, password)
  {
    if users == [] then None
    else if Matches(users[0], email, password) then Some(users[0])
    else
      var r := FirstMatch(users[1..], email, password);
      assert forall i :: 1 <= i < |users| ==> users[i] == users[1..][i - 1];
      r
  }

  /** When no user matches, a user appended to the table is the first match exactly when it matches. */
  lemma {:induction false} FirstMatchAfterAppend(users: seq<User>, x: User, email: Str, password: Str)
    requires forall i :: 0 <= i < |users| ==> !Matches(users[i], email, password)
    ensures FirstMatch(users + [x], email, password) == if Matches(x, email, password) then Some(x) else None
  {
    if users != [] {
      assert (users + [x])[1..] == users[1..] + [x];
      FirstMatchAfterAppend(users[1..], x, email, password);
    }
  }

  /**
   * An e-mail that differs from a stored user's only in the case of ASCII
   * letters counts as taken, so registering it is refused.
   */
  lemma CaseVariantIsTaken(db: Database, i: int, email: string)
    requires 0 <= i < |db.users| && |email| == |db.users[i].email|
    requires forall k :: 0 <= k < |email| ==> LowerChar(email[k]) == LowerChar(db.users[i].email[k])
    ensures db.EmailTaken(email)
  {
    EqualsIgnoringCasePointwise(db.users[i].email, email);
  }

  /** No two users have e-mails that are equal ignoring case. */
  ghost predicate EmailsUnique(users: seq<User>) {
    forall i, j :: 0 <= i < j < |users| ==> !EqualsIgnoringCase(users[i].email, users[j].email)
  }

  /** Inserting a user whose e-mail is not taken keeps e-mails unique. */
  lemma InsertUserKeepsEmailsUnique(db: Database, u: User)
    requires db.Valid() && EmailsUnique(db.users) && !db.EmailTaken(u.email)
    ensures EmailsUnique(db.InsertUser(u).users)
  {
    var r := db.InsertUser(u).users;
    forall i, j | 0 <= i < j < |r| ensures !EqualsIgnoringCase(r[i].email, r[j].email) {
      if j == |db.users| {
        assert r[i] == db.users[i];
      }
    }
  }

  /**
   * A user registered under an e-mail no one has taken, ignoring case, is then
   * the user the login query finds for that e-mail and password.
   */
  lemma RegisteredUserCanLogIn(db: Database, email: string, password: Str)
    requires db.Valid() && !db.EmailTaken(email)
    ensures db.InsertUser(User(0, email, password)).FirstUserWith(Some(email), password)
            == Some(User(db.nextUserId, email, password))
  {
    forall i | 0 <= i < |db.users| ensures !Matches(db.users[i], Some(email), password) {
      assert EqualsIgnoringCase(db.users[i].email, db.users[i].email);
    }
    FirstMatchAfterAppend(db.users, User(db.nextUserId, email, password), Some(email), password);
  }

  /** With unique e-mails, the user a login finds is the one whose credentials were given. */
  lemma LoginFindsThatUser(users: seq<User>, i: int, email: Str, password: Str)
    requires EmailsUnique(users) && 0 <= i < |users| && Matches(users[i], email, password)
    ensures FirstMatch(users, email, password) == Some(users[i])
  {
    var r := FirstMatch(users, email, password);
    var k :| 0 <= k < |users| && users[k] == r.value && Matches(users[k], email, password)
             && forall j :: 0 <= j < k ==> !Matches(users[j], email, password);
    assert k <= i;
    if k < i {
      assert users[k].email == users[i].email;
      assert EqualsIgnoringCase(users[k].email, users[i].email);
    }
  }

  /** One committed change; a change to a key that is not stored fails. */
  function Step(db: Database, c: Change): (r: Option<Database>)
    requires db.Valid()
    ensures r.Some? ==> r.value.Valid()
    ensures r.None? <==> (c.GameUpdated? && c.game.id !in db.games) || (c.GameRemoved? && c.id !in db.games)
  {
    match c
    case GameAdded(g) => Some(db.InsertGame(g))
    case GameUpdated(g) => if g.id in db.games then Some(db.ReplaceGame(g)) else None
    case GameRemoved(id) => if id in db.games then Some(db.DeleteGame(id)) else None
    case UserAdded(u) => Some(db.InsertUser(u))
  }

  /**
   * `SaveChanges`: the pending changes, committed in order and all or
   * nothing; it fails when one of them updates or removes a key that is not
   * stored.
   */
  function Apply(db: Database, changes: seq<Change>): (r: Option<Database>)
    requires db.Valid()
    decreases |changes|
    ensures r.Some? ==> r.value.Valid()
    ensures changes == [] ==> r == Some(db)
  {
    if changes == [] then Some(db)
    else
      match Step(db, changes[0])
      case None => None
      case Some(next) => Apply(next, changes[1..])
  }

  /**
   * Saving `a + b` commits `a` in order and then `b` in order, and fails
   * exactly when one of the two parts fails.
   */
  lemma {:induction false} ApplyConcat(db: Database, a: seq<Change>, b: seq<Change>)
    requires db.Valid()
    decreases |a|
    ensures Apply(db, a + b) == match Apply(db, a) case None => None case Some(d) => Apply(d, b)
  {
    if a == [] {
      assert a + b == b;
    } else {
      assert (a + b)[0] == a[0] && (a + b)[1..] == a[1..] + b;
      match Step(db, a[0])
      case None =>
      case Some(next) => ApplyConcat(next, a[1..], b);
    }
  }

  /** Saving a single pending change commits exactly that change. */
  lemma ApplyOne(db: Database, c: Change)
    requires db.Valid()
    ensures Apply(db, [c]) == Step(db, c)
  {
    assert [c][1..] == [];
  }

  /** The scoped `GameContext`: committed tables plus the tracker's pending changes. */
  class GameContext {
    var db: Database
    var pending: seq<Change>

    ghost predicate Valid()
      reads this
    {
      db.Valid()
    }

    /** A context over an empty store; SQLite assigns keys from 1. */
    constructor ()
      ensures Valid() && db == Database(map[], [], 1, 1) && pending == []
    {
      db := Database(map[], [], 1, 1);
      pending := [];
    }

    /** `Games.Add(game)` / `Games.AddAsync(game)`: tracked, not yet stored. */
    method AddGame(game: Game)
      modifies this
      ensures db == old(db) && pending == old(pending) + [GameAdded(game)]
    {
      pending := pending + [GameAdded(game)];
    }

    /**
     * `Games.Update(game)`, or a tracked entity that was modified in place.
     * The key is store-generated, so a game whose key is still unset (0) is
     * tracked as Added and saving inserts it; any other key is tracked as
     * Modified.
     */
    method UpdateGame(game: Game)
      modifies this
      ensures db == old(db)
      ensures pending == old(pending) + [if game.id == 0 then GameAdded(game) else GameUpdated(game)]
    {
      if game.id == 0 {
        pending := pending + [GameAdded(game)];
      } else {
        pending := pending + [GameUpdated(game)];
      }
    }

    /** `Games.Remove(game)`: the row with that key is marked for deletion. */
    method RemoveGame(game: Game)
      modifies this
      ensures db == old(db) && pending == old(pending) + [GameRemoved(game.id)]
    {
      pending := pending + [GameRemoved(game.id)];
    }

    /** `Users.Add(user)`. */
    method AddUser(user: User)
      modifies this
      ensures db == old(db) && pending == old(pending) + [UserAdded(user)]
    {
      pending := pending + [UserAdded(user)];
    }

    /**
     * `SaveChangesAsync()`: on success the pending changes are committed and
     * cleared; on failure (a concurrency exception) nothing is committed and
     * the tracker keeps its changes.
     */
    method SaveChanges() returns (saved: bool)
      requires Valid()
      modifies this
      ensures Valid()
      ensures saved == Apply(old(db), old(pending)).Some?
      ensures saved ==> db == Apply(old(db), old(pending)).value && pending == []
      ensures !saved ==> db == old(db) && pending == old(pending)
    {
      var r := Apply(db, pending);
      if r.Some? {
        db, pending := r.value, [];
        saved := true;
      } else {
        saved := false;
      }
    }
  }
}
