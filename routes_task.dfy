/**
 * The `/tasks` router: list, create and delete tasks, every route behind
 * `protect`. The checks compare the caller's role with "user" and "admin"
 * only, so every other role string (a superadmin, or any role a client chose
 * at registration) takes the unrestricted branches.
 */
module TaskRoutes {
  import opened Store
  import opened AuthMiddleware

  /** The ids of the tasks whose `user` field is `owner`. */
  function OwnedBy(tasks: map<Id, Task>, owner: Id): set<Id> {
    set t | t in tasks && tasks[t].owner == owner
  }

  /** `populate("user", "email role")`: a deleted owner shows up as null. */
  function Populate(users: map<Id, User>, task: Task): TaskView {
    if task.owner in users
    then TaskView(task.title, Some(OwnerInfo(task.owner, users[task.owner].email, users[task.owner].role)))
    else TaskView(task.title, None)
  }

  /** GET /: a "user" caller always gets its own tasks; any other caller gets the `user` query's tasks, or all. */
  method ListTasks(db: Database, authorization: Option<string>, verify: Verifier, userQuery: Option<Id>)
    returns (res: Response)
    ensures var p := Protect(authorization, verify, db.users);
            p.Rejected? ==> res == p.response
    ensures var p := Protect(authorization, verify, db.users);
            p.Authenticated? ==>
              && res.status == 200 && res.body.TaskList?
              && forall t :: t in res.body.tasks ==>
                   t in db.tasks && res.body.tasks[t] == Populate(db.users, db.tasks[t])
    ensures var p := Protect(authorization, verify, db.users);
            p.Authenticated? && p.user.role == USER ==>
              res.body.tasks.Keys == OwnedBy(db.tasks, p.user.id)
    ensures var p := Protect(authorization, verify, db.users);
            p.Authenticated? && p.user.role != USER && userQuery.Some? ==>
              res.body.tasks.Keys == OwnedBy(db.tasks, userQuery.value)
    ensures var p := Protect(authorization, verify, db.users);
            p.Authenticated? && p.user.role != USER && userQuery.None? ==>
              res.body.tasks.Keys == db.tasks.Keys
  {
    var p := Protect(authorization, verify, db.users);
    if p.Rejected? {
      return p.response;
    }
    var caller := p.user;
    var query: Option<Id> := None;
    if caller.role == USER {
      query := Some(caller.id);
    } else if userQuery.Some? {
      query := userQuery;
    }
    var found := map t | t in db.tasks && (query.None? || db.tasks[t].owner == query.value)
                     :: Populate(db.users, db.tasks[t]);
    res := Response(200, TaskList(found));
  }

  /** POST /: a "user" caller always owns what it creates; others may name an owner in the body. */
  method CreateTask(db: Database, authorization: Option<string>, verify: Verifier, title: string, owner: Option<Id>)
    returns (res: Response)
    requires db.Valid()
    modifies db
    ensures db.Valid()
    ensures db.users == old(db.users)
    ensures var p := Protect(authorization, verify, old(db.users));
            p.Rejected? ==> res == p.response && db.tasks == old(db.tasks)
    ensures var p := Protect(authorization, verify, old(db.users));
            p.Authenticated? ==>
              var o := if p.user.role == USER then p.user.id else owner.GetOr(p.user.id);
              && res.status == 201 && res.body.TaskCreated?
              && res.body.id !in old(db.tasks)
              && res.body.task == Task(title, o)
              && db.tasks == old(db.tasks)[res.body.id := Task(title, o)]
  {
    var p := Protect(authorization, verify, db.users);
    if p.Rejected? {
      return p.response;
    }
    var caller := p.user;
    var taskUser: Id;
    if caller.role == USER {
      taskUser := caller.id;
    } else {
      taskUser := owner.GetOr(caller.id);
    }
    var id := db.NewId();
    var task := Task(title, taskUser);
    db.tasks := db.tasks[id := task];
    res := Response(201, TaskCreated(id, task));
  }

  /**
   * DELETE /:id. A "user" caller may delete only its own tasks; an "admin"
   * caller may not delete tasks of admins or superadmins (its own included);
   * every other caller deletes any task. Reading the role or id of an owner
   * that no longer exists throws inside the handler, which answers 500.
   */
  method DeleteTask(db: Database, authorization: Option<string>, verify: Verifier, id: Id)
    returns (res: Response)
    requires db.Valid()
    modifies db
    ensures db.Valid()
    ensures db.users == old(db.users) && db.nextId == old(db.nextId)
    ensures var p := Protect(authorization, verify, old(db.users));
            p.Rejected? ==> res == p.response && db.tasks == old(db.tasks)
    ensures var p := Protect(authorization, verify, old(db.users));
            p.Authenticated? ==>
              if id !in old(db.tasks) then
                res == Msg(404, "Task not found") && db.tasks == old(db.tasks)
              else
                var owner := old(db.tasks)[id].owner;
                if (p.user.role == USER || p.user.role == ADMIN) && owner !in db.users then
                  res == Response(500, InternalError) && db.tasks == old(db.tasks)
                else if p.user.role == USER && owner != p.user.id then
                  res == Msg(403, "Not allowed") && db.tasks == old(db.tasks)
                else if p.user.role == ADMIN && (db.users[owner].role == ADMIN || db.users[owner].role == SUPERADMIN) then
                  res == Msg(403, "Admins cannot delete tasks of other admins/superadmins") && db.tasks == old(db.tasks)
                else
                  res == Msg(200, "Task deleted") && db.tasks == old(db.tasks) - {id}
    // at most the named task goes
    ensures db.tasks == old(db.tasks) || (id in old(db.tasks) && db.tasks == old(db.tasks) - {id})
    // a "user" caller only ever removes its own tasks
    ensures var p := Protect(authorization, verify, old(db.users));
            p.Authenticated? && p.user.role == USER && db.tasks != old(db.tasks) ==>
              old(db.tasks)[id].owner == p.user.id
    // an "admin" caller cannot delete its own tasks
    ensures var p := Protect(authorization, verify, old(db.users));
            p.Authenticated? && p.user.role == ADMIN && id in old(db.tasks) && old(db.tasks)[id].owner == p.user.id ==>
              res.status == 403 && db.tasks == old(db.tasks)
    // a superadmin deletes any existing task
    ensures var p := Protect(authorization, verify, old(db.users));
            p.Authenticated? && p.user.role == SUPERADMIN && id in old(db.tasks) ==>
              res == Msg(200, "Task deleted") && db.tasks == old(db.tasks) - {id}
  {
    var p := Protect(authorization, verify, db.users);
    if p.Rejected? {
      return p.response;
    }
    var caller := p.user;
    if id !in db.tasks {
      return Msg(404, "Task not found");
    }
    var task := db.tasks[id];
    if caller.role == USER {
      if task.owner !in db.users {
        return Response(500, InternalError);
      }
      if task.owner != caller.id {
        return Msg(403, "Not allowed");
      }
    }
    if caller.role == ADMIN {
      if task.owner !in db.users {
        return Response(500, InternalError);
      }
      var ownerRole := db.users[task.owner].role;
      if ownerRole == ADMIN || ownerRole == SUPERADMIN {
        return Msg(403, "Admins cannot delete tasks of other admins/superadmins");
      }
    }
    db.tasks := db.tasks - {id};
    res := Msg(200, "Task deleted");
  }
}
