/**
 * Two request sequences run against a fresh database, proved from the route
 * contracts alone. Hashing and token signing are left abstract except for
 * what every correct implementation gives: a password matches its own hash,
 * and a signed token is a single field that verifies to the id it was signed for.
 */
module Scenarios {
  import opened Store
  import opened AuthMiddleware
  import opened AuthRoutes
  import opened TaskRoutes

  ghost predicate SoundCrypto(hash: string -> string, matches: (string, string) -> bool,
                              sign: Id -> string, verify: Verifier)
  {
    && (forall pw :: matches(pw, hash(pw)))
    && (forall id: Id :: sign(id) != "" && ' ' !in sign(id))
    && (forall id: Id :: verify(sign(id)) == Some(id))
  }

  /** Register, log in, create a task, list tasks: the list holds exactly that task, owned by the new user. */
  method RegisterLoginCreateList(hash: string -> string, matches: (string, string) -> bool,
                                 sign: Id -> string, verify: Verifier)
    returns (listed: Response)
    requires SoundCrypto(hash, matches, sign, verify)
    ensures listed.status == 200 && listed.body.TaskList? && |listed.body.tasks| == 1
    ensures forall t :: t in listed.body.tasks ==>
              && listed.body.tasks[t].title == "Buy milk"
              && listed.body.tasks[t].user.Some?
              && listed.body.tasks[t].user.value.email == "alice@x.com"
  {
    var db := new Database();
    var registered := Register(db, "alice", "alice@x.com", "pw123", None, hash);
    assert registered.status == 201;
    var alice := registered.body.summary.id;
    var loggedIn := Login(db, "alice@x.com", "pw123", matches, sign);
    assert db.users[alice].email == "alice@x.com";
    assert loggedIn.body.token == sign(alice);
    var header := Some("Bearer " + sign(alice));
    BearerAuthenticates(db.users, verify, alice, sign(alice));
    var created := CreateTask(db, header, verify, "Buy milk", None);
    var task := created.body.id;
    assert db.tasks == map[task := Task("Buy milk", alice)];
    listed := ListTasks(db, header, verify, None);
    assert OwnedBy(db.tasks, alice) == {task};
  }

  /** An admin promotes a user, who is then listed as admin, and the admin can no longer delete it. */
  method PromoteThenDelete(hash: string -> string, matches: (string, string) -> bool,
                           sign: Id -> string, verify: Verifier)
    returns (promoted: Response, listed: Response, deleted: Response)
    requires SoundCrypto(hash, matches, sign, verify)
    ensures promoted.status == 200
    ensures listed.status == 200 && listed.body.UserList?
    ensures exists id :: id in listed.body.users && listed.body.users[id].email == "alice@x.com" &&
                         listed.body.users[id].role == ADMIN
    ensures deleted == Msg(403, "You are on the same level!")
  {
    var db := new Database();
    var r := Register(db, "bob", "bob@x.com", "secret", Some(ADMIN), hash);
    var bob := r.body.summary.id;
    r := Register(db, "alice", "alice@x.com", "pw123", None, hash);
    var alice := r.body.summary.id;
    assert db.users[bob].email == "bob@x.com" && db.users[bob].role == ADMIN;
    var header := Some("Bearer " + sign(bob));
    BearerAuthenticates(db.users, verify, bob, sign(bob));
    promoted := MakeAdmin(db, header, verify, alice);
    assert db.users[alice].role == ADMIN;
    BearerAuthenticates(db.users, verify, bob, sign(bob));
    listed := ListUsers(db, header, verify);
    assert listed.body.users[alice].email == "alice@x.com";
    deleted := DeleteUser(db, header, verify, alice);
  }
}
