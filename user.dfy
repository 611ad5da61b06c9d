/** The user service: an in-memory table of users keyed by id, with a
    create handler and a lookup handler. */
module UserService {
  import opened Rpc

  datatype User = User(id: string, name: string, email: string)

  datatype CreateUserRequest = CreateUserRequest(name: string, email: string)

  /** The table invariant CreateUser keeps: each user is filed under its
      own id, and has a name and an email. */
  ghost predicate WellFormed(users: map<string, User>)
  {
    forall id :: id in users ==>
      users[id].id == id && users[id].name != "" && users[id].email != ""
  }

  /** The reply CreateUser gives for `req` when the id generator yields `newId`. */
  function NewUser(req: CreateUserRequest, newId: string): (r: Result<User>)
    ensures r.Ok? <==> req.name != "" && req.email != ""
    ensures r.Err? ==> r.error == InvalidArgument(NameAndEmailRequired)
    ensures r.Ok? ==> r.value == User(newId, req.name, req.email)
  {
    if req.name == "" || req.email == "" then Err(InvalidArgument(NameAndEmailRequired))
    else Ok(User(newId, req.name, req.email))
  }

  /** The reply GetUser gives for `id` against the table `users`. */
  function Lookup(users: map<string, User>, id: string): (r: Result<User>)
    ensures r.Ok? <==> id != "" && id in users
    ensures r.Ok? ==> r.value == users[id]
    ensures id == "" ==> r == Err(InvalidArgument(IdRequired))
    ensures id != "" && id !in users ==> r == Err(NotFound(UserEntity, id))
  {
    if id == "" then Err(InvalidArgument(IdRequired))
    else if id !in users then Err(NotFound(UserEntity, id))
    else Ok(users[id])
  }

  /** What GetUser returns from a well-formed table is a complete user
      record filed under the id asked for. */
  lemma LookupWellFormed(users: map<string, User>, id: string)
    requires WellFormed(users)
    ensures var r := Lookup(users, id);
      r.Ok? ==> r.value.id == id && r.value.name != "" && r.value.email != ""
  {
  }

  /** A successful CreateUser keeps the table well formed, and adds
      exactly one entry when the new id is fresh. */
  lemma CreateKeepsWellFormed(users: map<string, User>, req: CreateUserRequest, newId: string)
    requires WellFormed(users)
    requires newId != "" && newId !in users
    requires NewUser(req, newId).Ok?
    ensures var users' := users[newId := NewUser(req, newId).value];
      WellFormed(users') && users'.Keys == users.Keys + {newId} && |users'| == |users| + 1
  {
  }

  /** Round trip: GetUser on the id a successful CreateUser returned
      yields the user with the request's name and email, and every other
      id gives the reply it gave before. */
  lemma CreateThenLookup(users: map<string, User>, req: CreateUserRequest, newId: string, other: string)
    requires newId != ""
    requires NewUser(req, newId).Ok?
    ensures var users' := users[newId := NewUser(req, newId).value];
      && Lookup(users', newId) == Ok(User(newId, req.name, req.email))
      && (other != newId ==> Lookup(users', other) == Lookup(users, other))
  {
  }

  /** The server object; `users` is the map the Go handlers update in place. */
  class UserServer {
    var users: map<string, User>

    ghost predicate Valid()
      reads this
    {
      WellFormed(users)
    }

    constructor ()
      ensures Valid() && users == map[]
    {
      users := map[];
    }

    /** Validates the request, then stores the new user under `newId`,
        the id the generator produced. */
    method CreateUser(req: CreateUserRequest, newId: string) returns (r: Result<User>)
      requires Valid()
      requires newId != "" && newId !in users
      modifies this
      ensures Valid()
      ensures r == NewUser(req, newId)
      ensures r.Err? ==> users == old(users)
      ensures r.Ok? ==> users == old(users)[newId := r.value] && |users| == |old(users)| + 1
      ensures r.Ok? ==> Lookup(users, newId) == r
    {
      if req.name == "" || req.email == "" {
        return Err(InvalidArgument(NameAndEmailRequired));
      }
      var u := User(newId, req.name, req.email);
      users := users[newId := u];
      r := Ok(u);
    }

    /** Refuses an empty id before looking it up; changes nothing. */
    method GetUser(id: string) returns (r: Result<User>)
      ensures r == Lookup(users, id)
    {
      if id == "" {
        return Err(InvalidArgument(IdRequired));
      }
      if id !in users {
        return Err(NotFound(UserEntity, id));
      }
      r := Ok(users[id]);
    }
  }
}
