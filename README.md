# Role-based authorization of a task-management backend

This project models the authorization and resource-lifecycle rules of an Express/MongoDB
task-management backend in Dafny:

- the route guards `protect`, `adminOnly` and `superAdminOnly`;
- the `/auth` routes: register, login, list users, promote, demote, delete user;
- the `/tasks` routes: list, create, delete.

The two collections, `users` and `tasks`, are the fields of one `Database` class (`store.dfy`).
The class also holds an id counter that stands for ObjectId generation. Its invariant `Valid()`
says two things:

- every stored id has already been handed out;
- no two users share an email.

Every mutating route keeps that invariant. So in any sequence of requests, registration never
creates a second user with an email that is already taken.

Each route is one method that runs the middleware chain the router declares for it:

- first `protect`;
- then `adminOnly` or `superAdminOnly`, where the router uses one;
- then the handler.

Each method states the response and the new contents of both collections for every path. That
fixes which check answers first: a "user" caller gets 403 from `adminOnly` before the target is
looked up, even when the target does not exist. These contracts also say what stays unchanged.

The `protect` guard is modelled as the function `Protect`. It returns either the user that would
be attached to `req.user` (the stored user without its password) or the 401 response it sends.
The header's token is `authorization.split(" ")[1]`. `Split` models JavaScript's split on a
single space exactly, and the lemmas `SplitJoin` and `BearerTokenOf` prove that `"Bearer <token>"`
yields the token.

Roles are open strings, as in the code. Registration stores any role the client sends. The task
routes compare the caller's role only with "user" and "admin", so a superadmin and any other role
string take the unrestricted branches. The admin routes, by contrast, admit only "admin" and
"superadmin".

Password hashing, password comparison, token signing and token verification are function-valued
parameters: `hash`, `matches`, `sign` and `verify`. `Scenarios` (`scenarios.dfy`) proves, from the
route contracts alone, what two request sequences against a fresh database return. The proofs assume
three things of the parameters:

- a password matches its own hash;
- every signed token is non-empty and contains no space;
- a signed token verifies to the id it was signed for.

The intended policy is a strict rank order user < admin < superadmin, in which a promotion or
demotion that the rank rules forbid is refused with 403. The code differs from that policy in these
places, and the model follows the code:

- promoting a target that is already admin or superadmin is refused with 400, not 403;
- any other role string can be promoted;
- demoting a non-admin target is refused with 400;
- a task's title is not checked by the route code;
- there is no task-update route;
- make-admin and remove-admin return the whole saved user document, password hash included (`RoleChanged`).

## Model

| member | source | states |
|---|---|---|
| `AuthMiddleware.Split` | backend/src/middleware/auth.js:6 | `split(" ")` returns at least one field, no field contains a space, and joining the fields with single spaces gives back the header |
| `AuthMiddleware.SplitJoin` | backend/src/middleware/auth.js:6 | splitting the space-joined form of space-free fields returns exactly those fields (the converse round trip) |
| `AuthMiddleware.BearerToken` | backend/src/middleware/auth.js:6-7 | a token is found only in a present header; it is non-empty and has no space; a header without a space yields no token |
| `AuthMiddleware.EmptySecondFieldNoToken` | backend/src/middleware/auth.js:6-7 | a header whose first space is followed by nothing or by another space (`"Bearer "`, `"Bearer  x"`) yields no token, so `protect` answers 401 "No token provided" |
| `AuthMiddleware.BearerTokenOfFields` | backend/src/middleware/auth.js:6 | the token is the second space-separated field, whatever fields follow it |
| `AuthMiddleware.BearerTokenOf` | backend/src/middleware/auth.js:6 | `"<scheme> <token>"` yields exactly `<token>` |
| `AuthMiddleware.Protect` | backend/src/middleware/auth.js:5-17 | no token gives 401 "No token provided"; failed verification gives 401 "Invalid token"; a verified id with no user gives 401 "User not found"; otherwise the request passes exactly once, carrying the stored user of that id without its password; every rejection is 401 |
| `AuthMiddleware.BearerAuthenticates` | backend/src/middleware/auth.js:6-13 | a bearer header carrying a token that verifies to a stored user's id authenticates as that user |
| `AuthMiddleware.AdminOnly` | backend/src/middleware/auth.js:20-25 | passes if and only if the role is "admin" or "superadmin"; otherwise answers 403 |
| `AuthMiddleware.SuperAdminOnly` | backend/src/middleware/auth.js:28-33 | passes if and only if the role is exactly "superadmin"; otherwise answers 403 |
| `AuthMiddleware.SuperAdminPassesAdminOnly` | backend/src/middleware/auth.js:21-29 | passing `superAdminOnly` implies passing `adminOnly` |
| `AuthRoutes.StoredRole` | backend/src/routes/auth.js:22 | an absent or empty role is stored as "user"; a non-empty supplied role is stored verbatim; the stored role is never empty |
| `AuthRoutes.Register` | backend/src/routes/auth.js:9-32 | a taken email gives 400 and no change; otherwise exactly one user is added under a fresh id, with the hash of the password, the supplied role or "user", and a 201 summary; emails stay unique |
| `AuthRoutes.Login` | backend/src/routes/auth.js:35-56 | an unknown email and a password that does not match the stored hash both give 400 "Invalid credentials" with no token; a match gives 200 with the token signed for that user's id and its summary |
| `AuthRoutes.ListUsers` | backend/src/routes/auth.js:59-62 | guard failures answer first (401, then 403); an admin or superadmin gets every stored user, and only those, without password |
| `AuthRoutes.MakeAdmin` | backend/src/routes/auth.js:65-76 | 401/403 from the guards before any lookup; 404 for a missing id; 400 and no change for an admin or superadmin target; otherwise only the target's role changes, to "admin"; tasks untouched |
| `AuthRoutes.RemoveAdmin` | backend/src/routes/auth.js:79-90 | non-superadmin callers get 403; 404 for a missing id; any target whose role is not exactly "admin" gives 400 and no change; otherwise only the target's role changes, to "user" |
| `AuthRoutes.DeleteUser` | backend/src/routes/auth.js:93-107 | 404 for a missing id; a superadmin is never deleted (403); an admin deleting an admin, itself included, gets 403 "same level"; otherwise exactly the target is removed and its tasks remain |
| `TaskRoutes.ListTasks` | backend/src/routes/task.js:8-26 | a "user" caller gets exactly its own tasks whatever the query says; any other role gets exactly the tasks of the queried owner, or all tasks when no owner is given; each listed task carries its owner's id, email and role, or null when the owner no longer exists |
| `TaskRoutes.CreateTask` | backend/src/routes/task.js:29-47 | exactly one task is added under a fresh id; a "user" caller always owns it; other roles get the owner named in the body, or themselves |
| `TaskRoutes.DeleteTask` | backend/src/routes/task.js:50-79 | 404 for a missing task; a "user" caller removes only its own tasks; an "admin" caller gets 403 for tasks of admins or superadmins, its own included; a superadmin removes any existing task; a success removes exactly that task |
| `Scenarios.RegisterLoginCreateList` | backend/src/routes/auth.js:35-56 | after register, login and create, listing with the login token returns exactly the one new task, owned by the new user |
| `Scenarios.PromoteThenDelete` | backend/src/routes/auth.js:65-107 | an admin promotes a user, the user list shows it as admin, and the admin's delete of it is refused with 403 "same level" |

## Left out

- Password hashing with bcrypt (salt and cost) and JWT signing and verification (secret and 1-hour expiry) are function parameters. Salting is not modelled: `hash` is a function of the password alone.
- A token whose payload carries no `id` is folded into `verify` returning None, which gives 401 "Invalid token" rather than "User not found".
- Database failures and ObjectId cast errors (a malformed `:id`, `user` query or `user` body field) are not modelled: ids are always well formed. What such a failure produces depends on where it happens:
  - in `protect`, the `catch` block answers 401 "Invalid token";
  - in register, login and the three task routes, the `catch` block answers 500;
  - in GET /users, make-admin, remove-admin and DELETE /users/:id, there is no `catch` block and no error handler, so the rejection goes unhandled and no response is modelled for it.
- Request fields are modelled as a single string or id, or as absent; an empty string counts as absent, as JavaScript's truthiness does. Other JSON values are not modelled:
  - a repeated `?user=a&user=b` query becomes an array, which the database treats as "owner in {a, b}";
  - an object `email` such as `{"$ne": null}` becomes a query operator in register's and login's lookups.
- The only 500 modelled is deleting a task whose owner was deleted, when the caller's role is "user" or "admin". The handler then reads a field of the null populated owner.
- Request bodies with missing fields are not modelled: an absent email, or an absent password that makes hashing throw. Schema validation (required title, email format) is also out, because the User and Task model files are not part of this model.
- AuthRoutes.ListUsers: the result is a map keyed by id, so the order in which the database returns users is not modelled.
- TaskRoutes.ListTasks: the result is a map keyed by id, so the order in which the database returns tasks is not modelled.
- Concurrent requests on the same record are not modelled; each route runs as one atomic step.
- Express wiring, CORS, Swagger loading and environment configuration are not modelled; neither is the frontend, whose button gating only mirrors the server rules.
