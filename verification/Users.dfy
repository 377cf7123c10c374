/** The user table: a list and an index into it. */
module Users {
  import opened Common
  import opened Pagination

  const MAX_USERS := 10000

  datatype User = User(id: int, name: string)

  datatype Event = Create(user: User) | Update(id: int, user: User)

  datatype State = State(list: seq<User>, idx: map<int, int>)

  const INITIAL := State([User(1, "Alice"), User(2, "Bob")], map[1 := 0, 2 := 1])

  function Step(s: State, e: Event): State {
    match e
    case Create(user) =>
      if |s.list| >= MAX_USERS then s
      else
        var id := |s.list| + 1;
        State(s.list + [user.(id := id)], s.idx[id := |s.list|])
    case Update(id, user) =>
      if id in s.idx && 0 <= s.idx[id] < |s.list| then s.(list := s.list[s.idx[id] := user.(id := id)]) else s
  }

  function Run(evs: seq<Event>): State {
    if evs == [] then INITIAL else Step(Run(evs[..|evs| - 1]), evs[|evs| - 1])
  }

  /** In every reachable state the index maps the ids 1..n to the positions
      0..n-1 and every record carries its own id. */
  lemma {:induction false} IndexIsIdMinusOne(evs: seq<Event>)
    ensures var s := Run(evs);
            && 2 <= |s.list| <= MAX_USERS
            && (forall id :: id in s.idx <==> 1 <= id <= |s.list|)
            && (forall id :: id in s.idx ==> s.idx[id] == id - 1 && s.list[id - 1].id == id)
  {
    if evs != [] {
      IndexIsIdMinusOne(evs[..|evs| - 1]);
    }
  }

  /** What the last write to a user's record left there, read off the run. */
  function LastWrite(evs: seq<Event>, id: int): (name: string) {
    if evs == [] then if id == 1 then "Alice" else if id == 2 then "Bob" else ""
    else
      var before, e := evs[..|evs| - 1], evs[|evs| - 1];
      match e
      case Create(user) => if id == |Run(before).list| + 1 && id <= MAX_USERS then user.name else LastWrite(before, id)
      case Update(i, user) => if i == id && 1 <= id <= |Run(before).list| then user.name else LastWrite(before, id)
  }

  /** getUser returns the last write to that user and to no other. */
  lemma {:induction false} GetReturnsLastWrite(evs: seq<Event>, id: int)
    requires id in Run(evs).idx
    ensures 0 <= Run(evs).idx[id] < |Run(evs).list|
    ensures Run(evs).list[Run(evs).idx[id]] == User(id, LastWrite(evs, id))
  {
    IndexIsIdMinusOne(evs);
    if evs != [] {
      IndexIsIdMinusOne(evs[..|evs| - 1]);
      if id in Run(evs[..|evs| - 1]).idx {
        GetReturnsLastWrite(evs[..|evs| - 1], id);
      }
    }
  }

  class UsersTable {
    var usersList: seq<User>
    var usersIdx: map<int, int>
    ghost var history: seq<Event>

    ghost predicate Valid()
      reads this
    {
      State(usersList, usersIdx) == Run(history)
    }

    constructor ()
      ensures Valid() && history == [] && usersList == [User(1, "Alice"), User(2, "Bob")]
    {
      usersList, usersIdx, history := INITIAL.list, INITIAL.idx, [];
    }

    ghost method Log(e: Event, before: State)
      requires before == Run(history) && State(usersList, usersIdx) == Step(before, e)
      modifies this`history
      ensures Valid() && history == old(history) + [e]
    {
      history := history + [e];
      assert history[..|history| - 1] == old(history);
    }

    method CreateUser(given: User) returns (ok: bool, user: User)
      requires Valid()
      modifies this
      ensures Valid() && history == old(history) + [Create(given)]
      ensures ok <==> |old(usersList)| < 10000
      ensures user == if ok then given.(id := |old(usersList)| + 1) else given
      ensures usersList == if ok then old(usersList) + [user] else old(usersList)
      ensures ok ==> user.id !in old(usersIdx) && usersIdx == old(usersIdx)[user.id := user.id - 1]
    {
      IndexIsIdMinusOne(history);
      ghost var before := State(usersList, usersIdx);
      user := given;
      ok := |usersList| < MAX_USERS;
      if ok {
        user := user.(id := |usersList| + 1);
        usersList := usersList + [user];
        usersIdx := usersIdx[user.id := |usersList| - 1];
      }
      Log(Create(given), before);
    }

    method GetUser(id: int) returns (ok: bool, user: User)
      requires Valid()
      ensures ok <==> 1 <= id <= |usersList|
      ensures ok ==> user == User(id, LastWrite(history, id))
    {
      IndexIsIdMinusOne(history);
      ok, user := id in usersIdx, User(0, "");
      if ok {
        GetReturnsLastWrite(history, id);
        user := usersList[usersIdx[id]];
      }
    }

    method UpdateUser(id: int, given: User) returns (ok: bool)
      requires Valid()
      modifies this
      ensures Valid() && history == old(history) + [Update(id, given)] && usersIdx == old(usersIdx)
      ensures ok <==> 1 <= id <= |old(usersList)|
      ensures usersList == if ok then old(usersList)[id - 1 := given.(id := id)] else old(usersList)
    {
      IndexIsIdMinusOne(history);
      ghost var before := State(usersList, usersIdx);
      ok := id in usersIdx;
      if ok {
        usersList := usersList[usersIdx[id] := given.(id := id)];
      }
      Log(Update(id, given), before);
    }

    /** The page window of listUsers, for a page number it accepts. */
    method CopyPage(page: int, perPage: int) returns (users: seq<User>)
      requires 1 <= page <= |usersList| <= MAX_USERS && 1 <= perPage <= 100
      ensures users == Window(usersList, page, perPage)
    {
      var total := |usersList|;
      var start := (page - 1) * perPage;
      if start > total {
        start := total;
      }
      var end := start + perPage;
      if end > total {
        end := total;
      }
      users := usersList[start..end];
    }

    /** A page beyond the number of users, not of pages, is refused. */
    method ListUsers(askedPage: int, askedPerPage: int) returns (ok: bool, users: seq<User>)
      requires Valid()
      ensures var page, perPage := GetPage(askedPage), if 1 <= askedPerPage <= 100 then askedPerPage else 10;
              && (ok <==> page <= |usersList|)
              && (ok ==> users == Window(usersList, page, perPage))
    {
      IndexIsIdMinusOne(history);
      var page := if askedPage < 1 then 1 else askedPage;
      var perPage := if askedPerPage < 1 || askedPerPage > 100 then 10 else askedPerPage;
      ok, users := page <= |usersList|, [];
      if ok {
        users := CopyPage(page, perPage);
      }
    }
  }
}
