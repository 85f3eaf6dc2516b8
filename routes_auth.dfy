/**
 * The `/auth` router: registration, login, and the admin routes that list,
 * promote, demote and delete users. Each route method runs the whole
 * middleware chain the router declares for it (`protect`, then a role guard,
 * then the handler). Password hashing, password comparison and token signing
 * are parameters.
 */
module AuthRoutes {
  import opened Store
  import opened AuthMiddleware

  /** `role || "user"`: an absent or empty role becomes "user", any other string is kept as is. */
  function StoredRole(role: Option<string>): (r: Role)
    ensures r != ""
    ensures role.Some? && role.value != "" ==> r == role.value
    ensures role.None? || role.value == "" ==> r == USER
  {
    match role
    case Some(given) => if given != "" then given else USER
    case None => USER
  }

  /** POST /register. */
  method Register(db: Database, name: string, email: string, password: string, role: Option<string>,
                  hash: string -> string)
    returns (res: Response)
    requires db.Valid()
    modifies db
    ensures db.Valid()
    ensures db.tasks == old(db.tasks)
    ensures EmailTaken(old(db.users), email) ==>
              res == Msg(400, "User already exists") && db.users == old(db.users)
    ensures !EmailTaken(old(db.users), email) ==>
              var id := old(db.nextId);
              && id !in old(db.users)
              && db.users == old(db.users)[id := User(name, email, hash(password), StoredRole(role))]
              && res == Response(201, Registered("User registered", Summary(id, email, StoredRole(role))))
  {
    if EmailTaken(db.users, email) {
      return Msg(400, "User already exists");
    }
    var hashed := hash(password);
    var id := db.NewId();
    var user := User(name, email, hashed, StoredRole(role));
    db.users := db.users[id := user];
    res := Response(201, Registered("User registered", Summary(id, user.email, user.role)));
  }

  /** POST /login: an unknown email and a wrong password get the same answer and no token. */
  method Login(db: Database, email: string, password: string,
               matches: (string, string) -> bool, sign: Id -> string)
    returns (res: Response)
    requires db.Valid()
    ensures !EmailTaken(db.users, email) ==> res == Msg(400, "Invalid credentials")
    ensures forall id :: id in db.users && db.users[id].email == email ==>
              if matches(password, db.users[id].password)
              then res == Response(200, LoggedIn(sign(id), Summary(id, email, db.users[id].role)))
              else res == Msg(400, "Invalid credentials")
  {
    if !EmailTaken(db.users, email) {
      return Msg(400, "Invalid credentials");
    }
    var id :| id in db.users && db.users[id].email == email;
    var user := db.users[id];
    if !matches(password, user.password) {
      return Msg(400, "Invalid credentials");
    }
    var token := sign(id);
    res := Response(200, LoggedIn(token, Summary(id, user.email, user.role)));
  }

  /** GET /users behind `protect` and `adminOnly`: every user, without password. */
  method ListUsers(db: Database, authorization: Option<string>, verify: Verifier) returns (res: Response)
    ensures var p := Protect(authorization, verify, db.users);
            p.Rejected? ==> res == p.response
    ensures var p := Protect(authorization, verify, db.users);
            p.Authenticated? && p.user.role != ADMIN && p.user.role != SUPERADMIN ==>
              res == Msg(403, "Admins only")
    ensures var p := Protect(authorization, verify, db.users);
            p.Authenticated? && (p.user.role == ADMIN || p.user.role == SUPERADMIN) ==>
              && res.status == 200 && res.body.UserList?
              && res.body.users.Keys == db.users.Keys
              && forall id :: id in res.body.users ==> res.body.users[id] == WithoutPassword(id, db.users[id])
  {
    var p := Protect(authorization, verify, db.users);
    if p.Rejected? {
      return p.response;
    }
    var guard := AdminOnly(p.user);
    if guard.Halt? {
      return guard.response;
    }
    var users := map id | id in db.users :: WithoutPassword(id, db.users[id]);
    res := Response(200, UserList(users));
  }

  /** PUT /make-admin/:id behind `protect` and `adminOnly`. */
  method MakeAdmin(db: Database, authorization: Option<string>, verify: Verifier, id: Id)
    returns (res: Response)
    requires db.Valid()
    modifies db
    ensures db.Valid()
    ensures db.tasks == old(db.tasks) && db.nextId == old(db.nextId)
    ensures var p := Protect(authorization, verify, old(db.users));
            p.Rejected? ==> res == p.response && db.users == old(db.users)
    // the role guard answers before the target is looked up
    ensures var p := Protect(authorization, verify, old(db.users));
            p.Authenticated? && p.user.role != ADMIN && p.user.role != SUPERADMIN ==>
              res == Msg(403, "Admins only") && db.users == old(db.users)
    ensures var p := Protect(authorization, verify, old(db.users));
            p.Authenticated? && (p.user.role == ADMIN || p.user.role == SUPERADMIN) ==>
              if id !in old(db.users) then
                res == Msg(404, "User not found") && db.users == old(db.users)
              else if old(db.users)[id].role == ADMIN || old(db.users)[id].role == SUPERADMIN then
                res == Msg(400, "Cannot promote an admin/superadmin") && db.users == old(db.users)
              else
                var promoted := old(db.users)[id].(role := ADMIN);
                && db.users == old(db.users)[id := promoted]
                && res == Response(200, RoleChanged(promoted.email + " promoted to admin", id, promoted))
    // only an existing non-admin target changes, and only to "admin"
    ensures db.users.Keys == old(db.users).Keys
    ensures forall u :: u in db.users && db.users[u] != old(db.users)[u] ==>
              u == id && db.users[u] == old(db.users)[u].(role := ADMIN) &&
              old(db.users)[u].role != ADMIN && old(db.users)[u].role != SUPERADMIN
  {
    var p := Protect(authorization, verify, db.users);
    if p.Rejected? {
      return p.response;
    }
    var guard := AdminOnly(p.user);
    if guard.Halt? {
      return guard.response;
    }
    if id !in db.users {
      return Msg(404, "User not found");
    }
    var user := db.users[id];
    if user.role == ADMIN || user.role == SUPERADMIN {
      return Msg(400, "Cannot promote an admin/superadmin");
    }
    user := user.(role := ADMIN);
    db.users := db.users[id := user];
    res := Response(200, RoleChanged(user.email + " promoted to admin", id, user));
  }

  /** PUT /remove-admin/:id behind `protect` and `superAdminOnly`. */
  method RemoveAdmin(db: Database, authorization: Option<string>, verify: Verifier, id: Id)
    returns (res: Response)
    requires db.Valid()
    modifies db
    ensures db.Valid()
    ensures db.tasks == old(db.tasks) && db.nextId == old(db.nextId)
    ensures var p := Protect(authorization, verify, old(db.users));
            p.Rejected? ==> res == p.response && db.users == old(db.users)
    ensures var p := Protect(authorization, verify, old(db.users));
            p.Authenticated? && p.user.role != SUPERADMIN ==>
              res == Msg(403, "Superadmin only") && db.users == old(db.users)
    ensures var p := Protect(authorization, verify, old(db.users));
            p.Authenticated? && p.user.role == SUPERADMIN ==>
              if id !in old(db.users) then
                res == Msg(404, "User not found") && db.users == old(db.users)
              else if old(db.users)[id].role != ADMIN then
                res == Msg(400, "Target is not an admin") && db.users == old(db.users)
              else
                var demoted := old(db.users)[id].(role := USER);
                && db.users == old(db.users)[id := demoted]
                && res == Response(200, RoleChanged(demoted.email + " demoted to user", id, demoted))
    // only an existing "admin" target changes, and only to "user"
    ensures db.users.Keys == old(db.users).Keys
    ensures forall u :: u in db.users && db.users[u] != old(db.users)[u] ==>
              u == id && old(db.users)[u].role == ADMIN && db.users[u] == old(db.users)[u].(role := USER)
  {
    var p := Protect(authorization, verify, db.users);
    if p.Rejected? {
      return p.response;
    }
    var guard := SuperAdminOnly(p.user);
    if guard.Halt? {
      return guard.response;
    }
    if id !in db.users {
      return Msg(404, "User not found");
    }
    var user := db.users[id];
    if user.role != ADMIN {
      return Msg(400, "Target is not an admin");
    }
    user := user.(role := USER);
    db.users := db.users[id := user];
    res := Response(200, RoleChanged(user.email + " demoted to user", id, user));
  }

  /** DELETE /users/:id behind `protect` and `adminOnly`. The user's tasks are kept. */
  method DeleteUser(db: Database, authorization: Option<string>, verify: Verifier, id: Id)
    returns (res: Response)
    requires db.Valid()
    modifies db
    ensures db.Valid()
    ensures db.tasks == old(db.tasks) && db.nextId == old(db.nextId)
    ensures var p := Protect(authorization, verify, old(db.users));
            p.Rejected? ==> res == p.response && db.users == old(db.users)
    ensures var p := Protect(authorization, verify, old(db.users));
            p.Authenticated? && p.user.role != ADMIN && p.user.role != SUPERADMIN ==>
              res == Msg(403, "Admins only") && db.users == old(db.users)
    ensures var p := Protect(authorization, verify, old(db.users));
            p.Authenticated? && (p.user.role == ADMIN || p.user.role == SUPERADMIN) ==>
              if id !in old(db.users) then
                res == Msg(404, "User not found") && db.users == old(db.users)
              else if old(db.users)[id].role == SUPERADMIN then
                res == Msg(403, "Cannot delete superadmin") && db.users == old(db.users)
              else if p.user.role == ADMIN && old(db.users)[id].role == ADMIN then
                res == Msg(403, "You are on the same level!") && db.users == old(db.users)
              else
                res == Msg(200, old(db.users)[id].email + " deleted") && db.users == old(db.users) - {id}
    // at most the target goes, the others are untouched, and a superadmin never goes
    ensures db.users.Keys == old(db.users).Keys || db.users.Keys == old(db.users).Keys - {id}
    ensures forall u :: u in db.users ==> u in old(db.users) && db.users[u] == old(db.users)[u]
    ensures forall u :: u in old(db.users) && old(db.users)[u].role == SUPERADMIN ==> u in db.users
    // an admin cannot delete itself
    ensures var p := Protect(authorization, verify, old(db.users));
            p.Authenticated? && p.user.role == ADMIN && id == p.user.id ==>
              res == Msg(403, "You are on the same level!")
  {
    var p := Protect(authorization, verify, db.users);
    if p.Rejected? {
      return p.response;
    }
    var caller := p.user;
    var guard := AdminOnly(caller);
    if guard.Halt? {
      return guard.response;
    }
    if id !in db.users {
      return Msg(404, "User not found");
    }
    var user := db.users[id];
    if user.role == SUPERADMIN {
      return Msg(403, "Cannot delete superadmin");
    }
    if caller.role == ADMIN && user.role == ADMIN {
      return Msg(403, "You are on the same level!");
    }
    db.users := db.users - {id};
    res := Msg(200, user.email + " deleted");
  }
}
