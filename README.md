# Store rating backend: access guard, account, admin and rating handlers

This project models the decision layer of a small store-rating web service in
Dafny. Users sign up or are added by an admin. Normal users rate stores.
Store owners see the ratings of their stores. An admin lists users and stores
with optional filters.

The model covers four backend files:

- `backend/middleware/authMiddleware.js`: the access guard `verifyToken(roles)`.
  It reads the Authorization header and answers 401, 403, or proceeds with the
  decoded claim (`AuthMiddleware`).
- `backend/controllers/authController.js`: `registerNormalUser`, `signup`,
  `login` and `updatePassword` (`AuthController`).
- `backend/controllers/adminController.js`: `addUser`, `addStore`,
  `getDashboardStats`, and the query builders of `getAllUsers` and
  `getAllStores` (`AdminController`).
- `backend/controllers/storeController.js`: the rating upsert
  `submitUserRating`, and the read handlers `getStoreDashboard`,
  `getStoreRatings`, `getAverageRating` and `getAllStoresForUser`
  (`StoreController`).

The three tables `users`, `stores` and `ratings` are sequences of rows held by
one `Tables.Database` object. Its auto-increment counters hand out ids, and
its invariant `Valid` says each table's ids strictly increase and stay below
the next id. Handlers that write the database are methods that modify it.
Each one states its reply and the whole new state. Read handlers and
decisions are functions. `Common` holds JavaScript truthiness of request
fields, `|| null`, `join`, and the first-row lookup `results[0]`.

bcrypt and JSON Web Tokens are function parameters:

- `hash` stands for `bcrypt.hash`, and `check` for `bcrypt.compareSync`.
- `sign` stands for `jwt.sign`.
- `verify(token, now)` stands for `jwt.verify`. It returns `None` where the
  library throws.

Properties that need these libraries to behave are lemma preconditions, for
example `check(p, hash(p))`, or "verify returns the signed claim before its
expiry". The current time is a parameter: `now` is the token issue time and
the `created_at` of a new rating.

## Model

| member | source | states |
|---|---|---|
| Common.OrNull | backend/controllers/adminController.js:42 | `v \|\| null` keeps a non-empty string and turns an absent or empty one into NULL |
| Common.FirstWhere | backend/controllers/authController.js:75-77 | `results[0]` of a filtered select: the index of a matching row with no earlier match, or none exactly when no row matches |
| AuthMiddleware.Split | backend/middleware/authMiddleware.js:13 | `split(" ")` always yields at least one field |
| AuthMiddleware.SplitJoin | backend/middleware/authMiddleware.js:13 | joining the fields of a split with the separator gives back the original string |
| AuthMiddleware.SplitFieldsFree | backend/middleware/authMiddleware.js:13 | no field of a split contains the separator |
| AuthMiddleware.SplitAtFirst | backend/middleware/authMiddleware.js:13 | splitting `a + sep + b`, with `a` free of the separator, gives `a` and then the fields of `b` |
| AuthMiddleware.SplitHead | backend/middleware/authMiddleware.js:13 | the first field is the longest prefix without the separator |
| AuthMiddleware.BearerToken | backend/middleware/authMiddleware.js:13 | the token is the text after "Bearer " up to the next space or the end, and holds no space |
| AuthMiddleware.BearerTokenOf | backend/middleware/authMiddleware.js:9-13 | a header "Bearer " + token, with a token free of spaces, passes the prefix check and hands over exactly that token |
| AuthMiddleware.Guard | backend/middleware/authMiddleware.js:6-30 | the outcomes exclude each other. 401 "Unauthorized" exactly when the header is missing, empty or not "Bearer "-prefixed. 401 "Invalid token" exactly when verification fails. 403 only with a non-empty role list that lacks the claim's role. Proceed otherwise. Both 403 and proceed carry the decoded claim as `req.user` |
| AuthMiddleware.EmptyRolesNeverForbid | backend/middleware/authMiddleware.js:6-25 | with the default empty role list the guard never answers 403, and every verified claim proceeds |
| AuthMiddleware.RouteRoles | backend/routes/storeRoutes.js:6-11 | each guarded store route admits exactly one role |
| AuthMiddleware.RouteAdmitsOnlyItsRole | backend/routes/storeRoutes.js:6-11 | a verified request reaches a store handler exactly when its role is the route's role: "store_owner" for dashboard, ratings and average, "normaluser" for the store list and rating |
| Tables.SetRatingByUniqueId | backend/controllers/storeController.js:131-132 | under the id invariant, the update by id changes exactly the row with that id, and only its rating and comment |
| Tables.Database.InsertUser | backend/controllers/adminController.js:22-27 | appends the row under the next auto-increment id, returns that id, and keeps the id invariant |
| Tables.Database.InsertStore | backend/controllers/adminController.js:40-45 | appends the store under the next auto-increment id and keeps the id invariant |
| Tables.Database.InsertRating | backend/controllers/storeController.js:138-139 | appends the rating under the next auto-increment id and keeps the id invariant |
| Tables.Database.UpdateRating | backend/controllers/storeController.js:131-132 | rewrites rating and comment of the rows with the given id, keeps the id invariant, and changes no other table |
| AuthController.RegisterNormalUser | backend/controllers/authController.js:8-39 | 400 "All fields are required" unless name, email, address and password are present. 409 "Email already registered" when the email exists. Otherwise 201 and exactly one appended user with the hashed password and role "normaluser", whatever the body says. Nothing changes on a refusal. Email uniqueness is preserved |
| AuthController.Signup | backend/controllers/authController.js:46-64 | 400 "Name, email, password required" unless those three are present. Otherwise 200 with the new id and one appended user whose role is the given one, or "normaluser" when it is falsy. There is no duplicate check |
| AuthController.SignupMayDuplicateEmail | backend/controllers/authController.js:49-57 | signing up with an email already present breaks email uniqueness |
| AuthController.Login | backend/controllers/authController.js:66-92 | 400 "Email and password required" when either is missing. The same 400 "Invalid credentials" for an unknown email and for a wrong password. Success exactly when the first user with that email passes the password check. The token is the signature of {id, role, name} with an 8-hour expiry, and the reply's user is {id, name, role} |
| AuthController.LoginAfterRegistration | backend/controllers/authController.js:28-36 | after a successful self-registration, logging in with the same email and password succeeds as a "normaluser", given that the check accepts the hash |
| AuthController.LoginAfterSignup | backend/controllers/authController.js:53-90 | after a signup with a new email, logging in with the same email and password succeeds, given that the check accepts the hash. The token's claim and the reported user carry the new id, the name, and the role sent in the body, or "normaluser" when it is falsy |
| AuthController.DuplicateSignupLogsInAsOlderRow | backend/controllers/authController.js:57-79 | after a signup with an email already present, login succeeds exactly when the password passes the check against the older row's hash, and then reports the older user |
| AuthController.IssuedTokenPassesGuard | backend/controllers/authController.js:82-86 | a token issued at login passes the guard for 8 hours with `req.user` equal to the issued claim, and proceeds exactly when the role list is empty or holds the user's role |
| AuthController.ExpiredTokenIsInvalid | backend/controllers/authController.js:82-86 | once 8 hours have passed the guard answers 401 "Invalid token" to the issued token |
| AuthController.DecidePasswordUpdate | backend/controllers/authController.js:94-128 | the checks run in order, each refusal assuming the earlier checks passed: 401 "Unauthorized" without a bearer header, 500 "Server error" when verification throws, 400 "Old and new password required" on a missing field, 404 "User not found" on an unknown user id, 400 "Old password is incorrect" on a wrong old password. The change is allowed exactly when all pass, and then for the token's user id |
| AuthController.WithPasswordTouchesOneUser | backend/controllers/authController.js:119 | under the id invariant the update replaces the stored hash of the one user with that id and nothing else; with no such user nothing changes |
| AuthController.WithPasswordKeepsInvariants | backend/controllers/authController.js:119 | a password change keeps the id invariant and email uniqueness |
| AuthController.UpdatePassword | backend/controllers/authController.js:94-128 | on a refusal the reply is the refusal and the table is unchanged; when allowed, 200 "Password updated successfully" and the new hash stored for the token's user id |
| AuthController.LoginAfterPasswordChange | backend/controllers/authController.js:118-121 | after a password change the user logs in with the new password and is reported with unchanged id, name and role |
| AdminController.AddUser | backend/controllers/adminController.js:8-32 | 400 "All fields are required" unless all five fields are present. 400 "User already exists" when the email exists. Otherwise 201 with the new id, and exactly one appended user with the hashed password and the role stored as given. Nothing changes on a refusal. Email uniqueness is preserved |
| AdminController.AddStore | backend/controllers/adminController.js:35-50 | 400 "Store name is required" without a name. Otherwise 201 with the new id and one appended store whose falsy email, address and owner become NULL |
| AdminController.Params | backend/controllers/adminController.js:76-79 | one parameter per condition, in condition order: substring filters bind "%v%", the role filter binds v |
| AdminController.PlaceholdersJoin | backend/controllers/adminController.js:81 | joining texts of one placeholder each with a placeholder-free separator gives one placeholder per text |
| AdminController.WherePlaceholders | backend/controllers/adminController.js:81 | the WHERE text holds exactly one placeholder per condition |
| AdminController.QueryPlaceholders | backend/controllers/adminController.js:81-82 | a query made of placeholder-free head and tail around the WHERE text binds one parameter per condition, and equals head + tail exactly when there is no condition |
| AdminController.UserConditions | backend/controllers/adminController.js:76-79 | one condition per truthy filter, in the fixed order name, email, address, role. A condition is in the list exactly when its filter is truthy, and it carries that filter's value: name, email and address as substring conditions, role as an exact match that comes last |
| AdminController.CollectUserFilters | backend/controllers/adminController.js:73-79 | the pushed filter texts and parameters are those of the user conditions |
| AdminController.UsersSelectText | backend/controllers/adminController.js:71 | the user listing's select text is "SELECT id, name, email, address, role FROM users" |
| AdminController.UsersQueryBinds | backend/controllers/adminController.js:71-82 | the user listing query holds as many placeholders as conditions, and is the bare listing exactly when no filter is given |
| AdminController.BuildUsersQuery | backend/controllers/adminController.js:69-85 | the SQL text is the user select, the WHERE text when some filter is given, then " ORDER BY name ASC". The placeholder count equals the parameter count |
| AdminController.StoreConditions | backend/controllers/adminController.js:105-107 | one substring condition per truthy filter over the "s."-prefixed columns, in the order name, email, address, and no role filter. A condition is in the list exactly when its filter is truthy, and it carries that filter's value |
| AdminController.CollectStoreFilters | backend/controllers/adminController.js:102-107 | the pushed filter texts and parameters are those of the store conditions |
| AdminController.StoresQueryBinds | backend/controllers/adminController.js:94-110 | the store listing query holds as many placeholders as conditions, and is the bare listing exactly when no filter is given |
| AdminController.BuildStoresQuery | backend/controllers/adminController.js:92-113 | the SQL text is the store select, the WHERE text when some filter is given, then " ORDER BY s.name ASC". The placeholder count equals the parameter count |
| StoreController.SubmitUserRating | backend/controllers/storeController.js:119-145 | 400 "Store ID and rating required" when storeId or rating is falsy (0 included), with the ratings unchanged. Otherwise the table becomes the upsert of the submission: 200 "Rating updated successfully" when the pair had a row, 200 "Rating submitted successfully" when one was appended. Users and stores are unchanged, and at most one row per (user, store) is preserved |
| StoreController.CountForZero | backend/controllers/storeController.js:125-129 | the existence check finds a row exactly when the pair's row count is not zero |
| StoreController.UpsertShape | backend/controllers/storeController.js:125-143 | when the pair has a row, only that first row changes, and only its rating and comment. Otherwise exactly one row (storeId, userId, rating, comment) is appended |
| StoreController.UpsertHoldsSubmission | backend/controllers/storeController.js:129-142 | afterwards the first row for the pair holds the submitted rating and `comment \|\| null`, and the table grew by one row exactly when the pair had none |
| StoreController.UpsertKeepsOnePerPair | backend/controllers/storeController.js:125-143 | with at most one row per (user, store) before a submission, the same holds after, and the submitted pair has exactly one |
| StoreController.StatsAfterSubmit | backend/controllers/adminController.js:54-61 | after a submission the admin counts show one more rating exactly when the pair had none, and the same users and stores |
| StoreController.MeanWithin | backend/controllers/storeController.js:20-25 | the average of ratings within [lo, hi] lies within [lo, hi] |
| StoreController.SafeAverage | backend/controllers/storeController.js:35 | a NULL average is reported as 0, any other average as itself |
| StoreController.StoreAverageWithin | backend/controllers/storeController.js:96 | with all ratings within [lo, hi], a store's reported average is 0 without ratings and within [lo, hi] otherwise |
| StoreController.StoreDashboard | backend/controllers/storeController.js:4-49 | 404 "No store found for this owner" exactly when the caller owns no store. Otherwise the first owned store is reported with its id, name and address, the number of ratings of that store, and `StoreAverage` of them, which is 0 when it has no rating |
| StoreController.DashboardCountAfterSubmit | backend/controllers/storeController.js:20-33 | a submission for the owner's dashboard store raises its count by one when it adds a row, and leaves it unchanged when it updates one |
| StoreController.OwnerAverageMatchesDashboard | backend/controllers/storeController.js:71-88 | for an owner of exactly one store, the average endpoint and the dashboard report the same average |
| StoreController.ShapeUserRating | backend/controllers/storeController.js:108-110 | `userRating` is present exactly when the user's rating value is truthy, and is then {rating, comment} |
| StoreController.StoresForUser | backend/controllers/storeController.js:92-116 | 500 "Error fetching stores" exactly when some store has more than one rating by the caller (the scalar subquery fails). Otherwise one entry per store, in table order, with the store's id, name and address, `averageRating` equal to `StoreAverage` of its ratings (0 when it has none), the caller's own rating value and comment from the caller's row for that store (both NULL without one), and `userRating` shaped from them by `ShapeUserRating` |
| StoreController.StoresForUserShowsOwnRating | backend/controllers/storeController.js:97-110 | with at most one rating per pair the list never fails, and a store shows the caller's rating exactly when the caller has a non-zero rating for it |
| StoreController.SubmittedRatingIsListed | backend/controllers/storeController.js:97-110 | after a user submits a non-zero rating, the store list shows that rating and its stored comment back to that user |
| StoreController.InsertByDate | backend/controllers/storeController.js:59 | inserting into a newest-first list keeps it newest first and adds exactly that row |
| StoreController.SortNewestFirst | backend/controllers/storeController.js:59 | `ORDER BY r.created_at DESC`: the result is newest first and a permutation of its input |
| StoreController.StoreRatings | backend/controllers/storeController.js:51-69 | the owner's rating list is newest first and holds exactly the joined rows |
| StoreController.JoinOwnerRatingsExact | backend/controllers/storeController.js:54-58 | a row is joined exactly when it is a rating of a store the owner owns whose author exists, with that author's name |
| StoreController.StoreRatingsOnlyOwned | backend/controllers/storeController.js:53-60 | every listed rating belongs to a store whose owner is the caller |
| StoreController.StoreRatingsAllOwned | backend/controllers/storeController.js:53-60 | every rating of the caller's stores whose author exists is listed, with its rating, comment, time and author name |

## Left out

- Storage and library failures are left out: a failing query, insert or update, a failing `bcrypt.hash`, and the 500 replies and `err.message` echoes they cause. The one failure that follows from the data, the scalar subquery of `getAllStoresForUser` meeting two rows, is modelled.
- Logging (`console.log`, `console.error`) is left out.
- The bcrypt salt and cost, the JWT secret and the token format are left out. They sit behind the `hash`, `check`, `sign` and `verify` parameters.
- The SQL engine is not modelled. `LIKE` matching and `ORDER BY name` on the admin lists are left out: the builders are modelled up to the SQL text and parameters they produce.
- Joins are modelled as filters that take the first matching user or any matching store. This equals the SQL join while ids are unique, which the id invariant `Tables.Database.Valid` ensures.
- `GROUP BY s.id` row order is not specified by SQL. The store list keeps table order.
- `results[0]` of a SELECT without ORDER BY is taken as the first matching row in table order (`Common.FirstWhere`). SQL does not fix that order. This affects the user found by email in `login`, the user found by id in `updatePassword`, the owner's first store in `getStoreDashboard`, and the existing row for a (user, store) pair in `submitUserRating`.
- Ties in `ORDER BY r.created_at DESC` have no specified order in SQL. `SortNewestFirst` picks one newest-first order.
- Averages are exact rationals. The decimal `AVG` type and the `toFixed(2)` rounding of `getStoreDashboard` and `getAverageRating` are left out.
- MySQL's case-insensitive collation of email comparisons is left out. Emails compare exactly.
- The check-then-act race between concurrent submissions is left out: handlers run one at a time.
- The frontend pages, `server.js` and route wiring are left out. Only the guard's role table for store routes is modelled (`RouteRoles`). The admin routes pass through `allowAdmin`, which admits every request (backend/routes/adminRoutes.js:14-17), so no guard outcome is modelled for them.
- Request fields are strings or integers as the handlers use them. A number sent where a string is expected, or a string rating such as "5", is not modelled.
- `getDashboardStats` (`AdminController.DashboardStats`) is only the three table sizes. Its row in the table above is `StoreController.StatsAfterSubmit`.
- `getAverageRating` (`StoreController.OwnerAverage`) has no contract of its own. It is related to the dashboard by `StoreController.OwnerAverageMatchesDashboard`.

Behaviour of the code worth knowing:

- `signup` performs no duplicate-email check, so email uniqueness is not an invariant of every path (`AuthController.SignupMayDuplicateEmail`).
- `signup` stores whatever role the client sends, so a client can sign up as "admin" or "store_owner", and the login token then carries that role (`AuthController.LoginAfterSignup`).
- `addUser` answers a duplicate email with 400 "User already exists".
- `updatePassword` answers an invalid or expired token with 500 "Server error", since the failure of `jwt.verify` reaches its catch block.
- No handler checks that a rating lies in 1 to 5. Any non-zero rating is accepted.
