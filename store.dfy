/**
 * The two document collections of the backend (users and tasks), the records
 * they hold, and the JSON responses the route handlers send back.
 */
module Store {

  datatype Option<+T> = None | Some(value: T) {
    function GetOr(default: T): T {
      match this
      case Some(v) => v
      case None => default
    }
  }

  /** A document id (a MongoDB ObjectId), shared by both collections. */
  type Id = nat

  /** Roles are stored as free strings; only these three have a meaning. */
  type Role = string
  const USER: Role := "user"
  const ADMIN: Role := "admin"
  const SUPERADMIN: Role := "superadmin"

  /** A user document; `password` holds the hash, never the plaintext. */
  datatype User = User(name: string, email: string, password: string, role: Role)

  /** A task document; `owner` is the `user` reference field. */
  datatype Task = Task(title: string, owner: Id)

  /** A user document read with `.select("-password")`. */
  datatype PublicUser = PublicUser(id: Id, name: string, email: string, role: Role)

  /** The `{ id, email, role }` object returned by register and login. */
  datatype Summary = Summary(id: Id, email: string, role: Role)

  /** The owner as filled in by `populate("user", "email role")`. */
  datatype OwnerInfo = OwnerInfo(id: Id, email: string, role: Role)

  /** A listed task; `user` is None when the owner no longer exists (populate yields null). */
  datatype TaskView = TaskView(title: string, user: Option<OwnerInfo>)

  datatype Body =
    | Message(text: string)
    | Registered(text: string, summary: Summary)
    | LoggedIn(token: string, summary: Summary)
    | UserList(users: map<Id, PublicUser>)
    /** make-admin and remove-admin echo the whole saved document, hash included. */
    | RoleChanged(text: string, id: Id, user: User)
    | TaskList(tasks: map<Id, TaskView>)
    | TaskCreated(id: Id, task: Task)
    /** The 500 sent by a handler's `catch` block. */
    | InternalError

  datatype Response = Response(status: int, body: Body)

  function Msg(status: int, text: string): Response {
    Response(status, Message(text))
  }

  /** `.select("-password")` applied to the document stored under `id`. */
  function WithoutPassword(id: Id, u: User): PublicUser {
    PublicUser(id, u.name, u.email, u.role)
  }

  /** `User.findOne({ email })` finds a document. */
  predicate EmailTaken(users: map<Id, User>, email: string) {
    exists id :: id in users && users[id].email == email
  }

  ghost predicate UniqueEmails(users: map<Id, User>) {
    forall a, b :: a in users && b in users && users[a].email == users[b].email ==> a == b
  }

  /** Both collections, with the id allocator that stands for ObjectId generation. */
  class Database {
    var users: map<Id, User>
    var tasks: map<Id, Task>
    var nextId: nat

    /** Every stored id was handed out already, and no two users share an email. */
    ghost predicate Valid()
      reads this
    {
      && (forall id :: id in users ==> id < nextId)
      && (forall id :: id in tasks ==> id < nextId)
      && UniqueEmails(users)
    }

    constructor ()
      ensures Valid()
      ensures users == map[] && tasks == map[]
    {
      users, tasks, nextId := map[], map[], 0;
    }

    /** Allocates an id that no stored document uses. */
    method NewId() returns (id: Id)
      requires Valid()
      modifies this`nextId
      ensures Valid()
      ensures id == old(nextId) && nextId == id + 1
      ensures id !in users && id !in tasks
    {
      id := nextId;
      nextId := nextId + 1;
    }
  }
}
