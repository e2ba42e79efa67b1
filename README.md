# English-learning backend: a verified model of its auth, users, videos and keywords

This project models the Express backend of an English-learning site in Dafny. The backend keeps three MongoDB collections: users, videos, and the keywords annotated on a video. Every request passes through a middleware chain:

- `authMiddleware` takes the JWT from the `Authorization` header and verifies it.
- `requireRole(...roles)` then checks the caller's role.

The model covers:

- the login, register and `me` routes;
- the admin-only user routes;
- video CRUD;
- the keyword routes;
- the `initializeAdmin` bootstrap;
- the alternative `/login` and `/me` router;
- the front end's `Icon` component, which turns a kebab-case icon name into the PascalCase key of its icon table.

Layout, one module per file:

| file | module | what it holds |
|---|---|---|
| `wrappers.dfy` | `Wrappers` | `Option` |
| `strings.dfy` | `Strings` | `split(sep)` / `join` as JavaScript defines them, with the split–join round trip |
| `collection.dfy` | `Collection` | a collection as a sequence of documents in natural order; the Mongoose queries the routes use (`findById`, `findOne`, `find`, `deleteMany`, `findByIdAndDelete`, `findByIdAndUpdate`, `sort({createdAt: -1})`) |
| `bcrypt.dfy` | `Bcrypt` | `hash(password, 10)` and `compare`, with exact matching |
| `jwt.dfy` | `Jwt` | `sign` with `expiresIn: '7d'` and `verify`; the encoder and decoder are parameters |
| `auth.dfy` | `Auth` | token extraction, `authMiddleware`, `requireRole` and the secret fallback |
| `server.dfy` | `Server` | class `Backend`: the collections, an id counter standing for ObjectId generation, and every route of `backend/server.js` |
| `routes_auth.dfy` | `AuthRoutes` | class `Router` of `backend/routes_auth.js` |
| `icon.dfy` | `Icon` | the name conversion and the lookup of `frontend/components/UI/icon.tsx` |

Routes are modelled as follows:

- A route that only reads is a function of the collections: `Login`, `Me`, `ListUsers`, `ListVideos`, `GetVideo`, `ListKeywords`.
- A route that writes is a method of the class. Its `ensures` states:
  - the response;
  - the whole new state of the collections, order included (a delete is `DeleteById` or `DeleteWhere` of the old collection);
  - that the class invariant `Valid()` is kept. `Valid()` means unique ids, ids below the counter, unique usernames, and every role in the role enum.
- The time (`now`), the bcrypt salt and the `Authorization` header are parameters.
- Response messages are modelled by meaning, not by their literal text.

Behaviour of the code worth knowing:

- When `JWT_SECRET` is unset or empty, `backend/server.js` still starts. It signs and verifies with `'default-secret-key'` (`Auth.SigningSecret`).
- The `Authorization` header is not checked for the `Bearer` scheme. Any word followed by a space and a token is accepted (`Auth.AnySchemeYieldsToken`).
- Deleting a user, a video or a keyword, and resetting a password, report success even when no document has that id. Only `GET`/`PUT /api/videos/:id` answer 404.
- Only `GET /api/videos` is sorted (newest `createdAt` first). Keywords and users come back in natural order.
- The video fields are those of the `VideoSchema` in `backend/server.js`: `title`, `videoUrl`, `subtitleUrl`, `author`, `createdAt`, `createdBy`.
- `jsonwebtoken` rejects a token once `now >= exp`, so a token is valid only while `now < exp` (`Jwt.Verify`).
- The constructor of `Server.Backend` is the first start, on an empty database. A later start is a `Backend` whose collections already hold documents; `initializeAdmin` then runs over them (`Server.StartTwice`).

## Model

| member | source | states |
|---|---|---|
| Strings.Split | backend/server.js:63 | `split(' ')` gives at least one piece, no piece contains the separator, and joining the pieces with the separator gives back the header |
| Strings.SplitCount | backend/server.js:63 | there is exactly one more piece than there are separators in the string |
| Strings.SplitAppend | frontend/components/UI/icon.tsx:16 | splitting `a + sep + b` splits `a` and `b` on their own and concatenates the results |
| Strings.SplitWithoutSeparator | frontend/components/UI/icon.tsx:16 | a string without the separator splits into itself alone |
| Strings.SplitJoin | frontend/components/UI/icon.tsx:16-18 | `split` undoes `join` for separator-free pieces, so split and join are inverses |
| Strings.FirstPieceIsPrefix | backend/server.js:63 | the first piece is the longest separator-free prefix, and it is followed by the separator when it is shorter than the string |
| Strings.Concat | frontend/components/UI/icon.tsx:18 | `join('')` keeps every character: its length is the sum of the pieces' lengths, and it starts with the first piece |
| Strings.ConcatAppend | frontend/components/UI/icon.tsx:18 | `join('')` distributes over concatenation of piece lists |
| Collection.FindById | backend/server.js:162 | `findById` returns null exactly when no document has the id; otherwise the document stored under that id |
| Collection.FindOne | backend/server.js:95 | `findOne` returns null exactly when no document matches; otherwise the first matching document in natural order |
| Collection.Find | backend/server.js:276 | `find(filter)` returns exactly the matching documents, keeps id uniqueness, and is never longer than the collection |
| Collection.FindAppend | backend/server.js:276 | finding in two stretches of a collection gives the two results one after the other |
| Collection.FindAll | backend/server.js:276 | when every document matches, `find` returns the whole collection in order |
| Collection.FindNone | backend/server.js:276 | when no document matches, `find` returns nothing |
| Collection.DeleteWhere | backend/server.js:264 | after `deleteMany(filter)` a document remains exactly when it was there and the filter does not select it |
| Collection.DeleteWhereAppend | backend/server.js:264 | `deleteMany` over two stretches deletes from each and keeps the survivors in order |
| Collection.DeleteWhereNothing | backend/server.js:264 | a filter that selects nothing leaves the collection unchanged |
| Collection.DeleteWhereEverything | backend/server.js:264 | a filter that selects everything empties the collection |
| Collection.DeleteWhereOne | backend/server.js:264 | deleting the one selected document between unselected ones leaves the others in their order |
| Collection.DeleteById | backend/server.js:184 | after `findByIdAndDelete(id)` no document has the id, and every other document remains |
| Collection.DeleteByIdAt | backend/server.js:184 | with unique ids, deleting the id at position k removes exactly that position and keeps the rest in order |
| Collection.DeleteByIdAbsent | backend/server.js:184 | deleting an id no document has changes nothing |
| Collection.UpdateById | backend/server.js:197 | `findByIdAndUpdate` changes only the document with that id, keeps every id and the length, and keeps ids unique |
| Collection.InsertDescending | backend/server.js:209 | inserting into a list sorted by descending key keeps it sorted and adds exactly that document |
| Collection.SortDescending | backend/server.js:209 | `sort({createdAt: -1})` returns a permutation of the collection, sorted newest first |
| Bcrypt.Hash | backend/server.js:135 | a hash made with cost 10 accepts the password it was made from and no other password |
| Bcrypt.CompareHashed | backend/server.js:100 | `bcrypt.compare` accepts a password against a stored hash exactly when the hash was made from that password, whatever the salt |
| Jwt.Sign | backend/server.js:105-109 | the signed token carries the payload, is issued now, and expires seven days later |
| Jwt.Verify | backend/server.js:70 | `verify` returns the payload exactly when the decoder accepts the token and `now` is before its `exp` |
| Jwt.IssuedTokenVerifies | backend/server.js:105-109 | a token signed at time t verifies, with its payload, exactly while now < t + 7 days |
| Auth.SigningSecret | backend/server.js:70 | the secret is `JWT_SECRET` when that is set and non-empty, and `'default-secret-key'` otherwise |
| Auth.ExtractToken | backend/server.js:63-67 | a token is found only in a header that has a space; the token is non-empty and contains no space |
| Auth.NoSpaceNoToken | backend/server.js:63-67 | a header without a space yields no token |
| Auth.TokenFollowsFirstSpace | backend/server.js:63 | the token is the text after the first space, up to the next space; the word before the space is never checked |
| Auth.AnySchemeYieldsToken | backend/server.js:63 | `<any word> <token>` yields exactly the token |
| Auth.Authenticate | backend/server.js:62-76 | the middleware rejects with 401 missing-token exactly when there is no token; it admits exactly when the token verifies, and then with the verified claims; it never answers 403 |
| Auth.RequireRole | backend/server.js:79-86 | the request is admitted exactly when the role is listed; otherwise the answer is 403 |
| Auth.Guard | backend/server.js:126 | the middleware chain: a 401 from authentication wins; with a role list, the request is admitted exactly when it authenticates and the role is listed; an authenticated caller whose role is not listed gets 403, and a 403 only comes that way |
| Auth.IssuedTokenAdmitted | backend/server.js:62-76 | a server-signed token sent as `<word> <token>` is admitted with its claims for seven days, and answered 401 after that |
| Auth.IssuedTokenRoleCheck | backend/server.js:79-86 | behind `requireRole`, a valid server-signed token is let through exactly when its role is listed and gets 403 otherwise; an expired one gets 401 |
| Server.View | backend/server.js:174 | `.select('-password')` keeps the id, username, role and creation time of the user |
| Server.ViewHidesPassword | backend/server.js:174 | what a user record shows does not depend on its password |
| Server.Present | backend/server.js:33-34 | the `required` check on a string fails exactly for a missing field and for `""` |
| Server.RoleOrViewer | backend/server.js:140 | a given non-empty role is kept, and a missing or empty role becomes viewer |
| Server.NewVideo | backend/server.js:232-236 | a new video passes the schema check exactly when title and videoUrl are non-empty; its creator is always the caller, whatever `createdBy` the body carries; `subtitleUrl` and `author` come from the body, and `createdAt` is the body's value or else now |
| Server.ApplyUpdate | backend/server.js:246-250 | every field the body gives replaces the stored one, and every field it leaves out is kept |
| Server.ApplyUpdateProperties | backend/server.js:246-250 | an update with an empty body changes nothing, applying the same update twice equals applying it once, and `createdBy` changes only when the body gives it |
| Server.Spread | backend/server.js:288-291 | `{ videoId, ...kw }`: the entry's own `videoId` wins over the request's, and every other field is the entry's |
| Server.SpreadAll | backend/server.js:288-291 | the map keeps the number and order of the entries |
| Server.NewKeyword | backend/server.js:44-57 | a keyword passes the schema check exactly when it has a `videoId` and a non-empty word; its details come from the entry, and `createdAt` is the entry's value or else now |
| Server.Backend.constructor | backend/server.js:70 | the first start, on an empty database, gives empty collections and a valid state, with the secret fallback applied |
| Server.Backend.Login | backend/server.js:91-123 | 200 exactly when some user has that name and the password matches; otherwise the same 401 for an unknown name and a wrong password; the token signs that user's id, username and role for seven days, and the response shows the same fields |
| Server.Backend.Me | backend/server.js:160-167 | after the middleware, the caller's own record without the password, or null when no user has the token's id |
| Server.Backend.ListUsers | backend/server.js:172-179 | admin only; every user, in natural order, without the password |
| Server.Backend.Register | backend/server.js:126-157 | admin only; 400 and no change for a taken name; 201 exactly when the name is free and non-empty and the role (default viewer) is in the enum, and then exactly one user is added with the hash of the password; a free name that is empty or a role outside the enum gets 500 and no change |
| Server.Backend.DeleteUser | backend/server.js:182-189 | admin only; the users become `DeleteById` of the old users (that id gone, the rest in their order), and success is reported either way |
| Server.Backend.SetPassword | backend/server.js:192-202 | admin only; only that user's hash changes, to a hash of the new password; success is reported either way |
| Server.Backend.ListVideos | backend/server.js:207-214 | any authenticated user; all videos, as a permutation of the collection, sorted newest `createdAt` first |
| Server.Backend.GetVideo | backend/server.js:217-227 | 404 exactly when no video has the id; otherwise 200 with the video stored under that id |
| Server.Backend.CreateVideo | backend/server.js:230-241 | admin or author; 201 exactly when the schema check passes, and then exactly one video is added with the caller as creator; an admitted request that fails the check gets 500 and no change |
| Server.Backend.UpdateVideo | backend/server.js:244-258 | admin or author; 404 and no change for an absent id; otherwise only that video changes, by the fields the body gives, and the updated video is returned |
| Server.Backend.DeleteVideo | backend/server.js:261-269 | admin only; the video and every keyword of that video are gone, and everything else stays in its order |
| Server.Backend.ListKeywords | backend/server.js:274-281 | any authenticated user; exactly the keywords of that video, in natural order |
| Server.Backend.BatchKeywords | backend/server.js:284-298 | admin or author; 201 exactly when every spread entry passes the schema check, and then the created keywords are appended in entry order with fresh ids; an admitted batch with a failing entry gets 500 and nothing is inserted |
| Server.Backend.DeleteKeyword | backend/server.js:301-308 | admin or author; that keyword is gone and every other stays in its order |
| Server.Backend.InitializeAdmin | backend/server.js:316-332 | afterwards a user named admin exists; one is added, with the hash of `admin123` and the admin role, only when no user had that name |
| Server.LoginTokenAuthenticates | backend/server.js:91-123 | the token a successful login returns, sent back as `Bearer <token>`, authenticates as that user with that role until seven days have passed |
| Server.BatchIsListedInOrder | backend/server.js:276 | when all of a video's keywords came from one batch, listing that video's keywords returns exactly the batch, in order |
| Server.StartTwice | backend/server.js:316-338 | running the bootstrap twice adds at most one user, and the default admin can log in with `admin123` when it was the one created |
| AuthRoutes.CheckCredentials | backend/routes_auth.js:11-15 | a match is an active user with that name whose password matches; with unique names, a failure means that no active user of that name has that password |
| AuthRoutes.CanSign | backend/routes_auth.js:20-22 | `jwt.sign` can sign only with a `JWT_SECRET` that is set and non-empty |
| AuthRoutes.View | backend/routes_auth.js:42 | `.select('-password')` keeps id, username, role, display name, `active` and `lastLogin` |
| AuthRoutes.ViewHidesPassword | backend/routes_auth.js:42 | what a user record shows does not depend on its password |
| AuthRoutes.Router.Login | backend/routes_auth.js:8-38 | a failed check gets 401 and no change; otherwise only that user's `lastLogin` becomes now and is saved, and then the answer is 200 with a token for `{ userId, role }`, or 500 when no secret is set |
| AuthRoutes.Router.Me | backend/routes_auth.js:40-47 | 401 without an identity; otherwise the record of the token's `userId` without its password, or null |
| Icon.Upper | frontend/components/UI/icon.tsx:17 | `toUpperCase` turns a lower-case ASCII letter into its upper-case letter and leaves every other character unchanged |
| Icon.Capitalize | frontend/components/UI/icon.tsx:17 | only the first character of a word changes, to upper case; the empty word stays empty |
| Icon.CapitalizeAll | frontend/components/UI/icon.tsx:16-17 | the map capitalizes each piece in place |
| Icon.PascalName | frontend/components/UI/icon.tsx:15-18 | the lookup key; a name without hyphens only has its first letter capitalized |
| Icon.PascalNameAppend | frontend/components/UI/icon.tsx:15-18 | each hyphen-separated segment is converted on its own and the hyphen is dropped |
| Icon.PascalNameShape | frontend/components/UI/icon.tsx:15-18 | the converted name has no hyphen, and its length is the name's length minus the number of hyphens |
| Icon.PascalNameLeadsUpper | frontend/components/UI/icon.tsx:15-18 | the converted name starts with a character that is already upper case |
| Icon.PascalNameIdempotent | frontend/components/UI/icon.tsx:15-18 | converting an already converted name changes nothing |
| Icon.Render | frontend/components/UI/icon.tsx:14-31 | null exactly when the converted name is not in the table; otherwise that entry, with size 24 and stroke width 2 unless given |
| Icon.RenderPascalName | frontend/components/UI/icon.tsx:14-31 | a kebab-case name and its PascalCase form render the same icon |

## Left out

- MongoDB itself: the connection, indexes, the `unique` index race, and ObjectId casting. An id that is not a valid ObjectId makes Mongoose throw (500); ids here are numbers from a counter, so that case cannot arise.
- Storage failures: a database error in any route gives 500. Only the 500s the code itself causes are modelled: a failed schema check on `save`/`insertMany`, and signing without a secret in the alternative router.
- Request bodies with missing or non-string `username`/`password`, or a non-array `keywords`. These fields are modelled as present and well typed. So `findOne({ username: undefined })` and `bcrypt.hash(undefined)` are not modelled.
- Express, CORS, JSON parsing, `app.listen`, the port and the `console` logging.
- `GET /api/health` (backend/server.js:311-313): it only reports the time.
- Bcrypt.Hash: the one-way function, the random salt (a parameter) and bcrypt's 72-byte password limit are not modelled; comparison is exact.
- Jwt.Verify: base64url, the HMAC signature and the other `jsonwebtoken` checks (`nbf`, the algorithm) are not modelled. The encoder and decoder are parameters, and their round trip is assumed only where a lemma requires `Jwt.Sound`.
- Time: `now` is a parameter in whole seconds. `Date` resolution and time zones are not modelled.
- A `find` without `sort` (`User.find()`, `Keyword.find({ videoId })`, `findOne`) is modelled as returning documents in insertion order, which MongoDB does not promise. So `Server.Backend.ListUsers`, `Server.Backend.ListKeywords` and `Server.BatchIsListedInOrder` state an order the database does not guarantee; which documents are returned does not depend on this.
- Server.Backend.ListVideos: the order of videos with equal `createdAt` is not stated; MongoDB does not fix it either.
- Concurrent requests: each route is one atomic step.
- Icon.Upper: only ASCII letters are upper-cased. Unicode case mapping (including `ß` becoming two characters) is not modelled.
- Documents with a client-chosen `_id`: `...req.body` and `...kw` would pass a body's `_id` to `new Video` and `insertMany`, so a client could pick the new document's id (or collide with an existing one, a 500). The model always hands out a fresh id from the counter.
- Icon.Render: React rendering and the `cn` class-name helper are not part of this model; the class name is passed on as given.
- `backend/routes_auth.js` depends on `../models/User` (with `comparePassword`) and `../middleware/auth` (`authenticate`), which are not part of this model. The user fields are the ones the router reads and writes, `comparePassword` is `Bcrypt.Compare`, and the middleware's verdict is the `identity` parameter of `AuthRoutes.Router.Me`, with 401 as its rejection.
- The root `server.js`, `backend/models_Video.js` and the React pages are not part of this model. The video manager posts `url` where the backend expects `videoUrl`; that is a front-end concern.
