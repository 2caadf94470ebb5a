# A verified model of the request logic of a small blogging server

`server.js` is an Express application. It stores users and posts in SQLite, hashes passwords with bcrypt,
and keeps a signed-in user's identity in a JWT cookie. A visitor can:

- register (which also signs them in);
- sign in;
- list their own posts on the dashboard;
- write, view, edit and delete posts.

Only the author of a post may change it.

This project models the decisions the handlers make and the changes they make to the two tables:

- `JsText` holds the JavaScript string semantics the handlers rely on:
  - the coercion of a non-string form field to `""`;
  - `String.prototype.trim`, with its whitespace set;
  - `.length` counted in UTF-16 code units;
  - the `/^[a-zA-Z0-9]+$/` test.
- `Validation` holds:
  - `sharedPostValidation`, as the method `ValidatePost`, specified by the function `PostErrors`;
  - the registration rules. Each rule is one `if` that pushes one message. The method
    `CollectRegistrationErrors` makes those pushes. It is specified by the function
    `RegistrationErrors`, which gives the errors in source order. Each error is a `RegistrationError`
    code; `Message` gives the text the server pushes for it, character for character.
- `Records` holds:
  - the rows of the two tables;
  - the caller's identity (`None` for an anonymous request, otherwise the decoded `userid` and
    `username`);
  - the token claims;
  - the responses a handler can produce.
- `Routes` holds the handlers that only read:
  - the `/login` decision;
  - the `mustBeLoggedIn` and ownership gate;
  - `GET /post/:id` and `GET /`.
- `Store` holds the handlers that write. They are methods of the class `Database`, whose fields are the
  two tables (maps from id to row) and their AUTOINCREMENT counters. Its invariant `Valid` says:
  - every id is fresh with respect to its counter;
  - every stored username passed registration and is unique (the `UNIQUE` constraint);
  - every stored post has a non-empty title and body;
  - every stored post's author has a users row (the `FOREIGN KEY` on `authorid`).

  Module-level lemmas in `Store` show what `GET /post/:id` and the dashboard display after each change
  the write handlers make.
- `Scenario` holds worked examples, each proved from the handlers' contracts and starting from empty
  tables:
  - two registrations, a sign-in, and a refused second registration of the same name;
  - create, view, list and edit;
  - delete twice;
  - edits and deletes attempted by a non-author or by an anonymous caller, and a create by a caller
    whose user row does not exist.

Behaviour kept exactly as written:

- Login looks the user up with the username as typed, but it checks for emptiness on the trimmed name.
  Registration stores the trimmed name. So `" alice"` passes the emptiness check and is then reported
  as unknown (`LoginDoesNotTrimLookup`).
- A wrong password renders the login form with the error list that is still empty at that point
  (`server.js:119-121`). Unlike the other failure branches, this one shows no message.
- The two login messages differ in capitalisation:
  - `"invalid username / password."` for empty input;
  - `"Invalid username / password."` for an unknown username.
- The edit handler is registered on the route string `"edit-post/:id"` (`server.js:236`), which has no
  leading `/`. Express is unlikely ever to match it. `Store.Database.EditPost` models the handler's body
  as if the route were reached.
- better-sqlite3 enforces foreign keys. So the post INSERT (`server.js:190-198`) throws when the
  caller's token names a user id that has no row, for example a token that outlived its database file.
  Express then answers 500 and nothing is stored. `CreatePost` returns `ServerError` in that case.

## Model

| member | source | states |
|---|---|---|
| JsText.TrimStartShape | server.js:166 | trimming the start keeps a suffix, removes only whitespace, and leaves no whitespace at the front |
| JsText.TrimEndShape | server.js:170 | trimming the end keeps a prefix, removes only whitespace, and leaves no whitespace at the back |
| JsText.TrimKeepsSlice | server.js:290 | `trim` returns one contiguous slice of its input, with no whitespace at either end |
| JsText.TrimCutsWhitespace | server.js:290 | every character `trim` removes, before or after the kept slice, is whitespace |
| JsText.TrimEmptyIffBlank | server.js:92 | `trim` gives `""` exactly when the input is all whitespace |
| JsText.TrimIdempotent | server.js:290 | trimming an already trimmed string changes nothing |
| JsText.JsLength | server.js:295-298 | `.length` is between the number of code points and twice that number, and is 0 only for the empty string |
| JsText.JsLengthOfBmp | server.js:320-325 | for text in the Basic Multilingual Plane, `.length` is the number of characters |
| JsText.AlphanumericLength | server.js:301 | an ASCII-alphanumeric string has `.length` equal to its number of characters |
| JsText.TrimAlphanumeric | server.js:301 | an ASCII-alphanumeric string is unchanged by `trim` |
| Validation.PostErrors | server.js:175-176 | the title message is present exactly when the cleaned title is empty; the body message is present exactly when the cleaned body is empty; at most two entries, title first; empty exactly when both fields are non-empty |
| Validation.ValidatePost | server.js:158-179 | a non-string field is treated as `""`; each field is trimmed and then sanitized; the errors are those of the cleaned fields |
| Validation.CollectRegistrationErrors | server.js:285-325 | the eight checks push their errors in source order, which is the specification `RegistrationErrors` |
| Validation.Messages | server.js:293-324 | one pushed text per error code, in the same order |
| Validation.MessageInjective | server.js:293-324 | distinct registration errors have distinct texts |
| Validation.MessagesMembers | server.js:293-324 | a code is in the error list exactly when its text is in the rendered list |
| Validation.RegistrationFailures | server.js:292-325 | each error appears exactly when its own guarded condition holds |
| Validation.RegistrationMessages | server.js:292-325 | each message is rendered exactly when its guarded condition holds |
| Validation.RegistrationAccepted | server.js:292-329 | no errors exactly when the trimmed username has length 3..10, is alphanumeric and is not stored, and the password has length 12..70; an accepted username is acceptable for storage |
| Validation.EmptyFieldsReportedOnce | server.js:292-325 | an empty username yields "you must enter a username" and none of the three username-format messages; an empty password yields "you must enter a password" and neither length message |
| Validation.PasswordLengthBoundaries | server.js:320-325 | a password of `length` 11 is too short, one of 71 is too long, and 12 to 70 raise no password message |
| Routes.FindUser | server.js:99-103 | finds a row exactly when one with that exact username is stored, and returns that row's id |
| Routes.Login | server.js:86-143 | empty trimmed username or empty password gives `["invalid username / password."]`; an unknown username gives `["Invalid username / password."]`; a wrong password gives `[]`; a session is issued exactly when the stored digest verifies; the token carries the row's id and username, `skyColor` "blue" and an expiry 24 hours after now |
| Routes.OwnedPost | server.js:241-248 | the gate lets a request through exactly when the caller is signed in, the post exists and its `authorid` is the caller's `userid` |
| Routes.GateAdmitsOnlyTheAuthor | server.js:246-248 | two callers that both pass the gate for one post have the same id, and it is the post's author |
| Routes.ViewPost | server.js:206-216 | a post is shown, with its author's username, exactly when it exists and its author row exists (the inner join); otherwise redirect to `/`. How the page follows create, edit and delete is stated by the `Store.View…` lemmas |
| Routes.PostsBy | server.js:69-70 | exactly the posts whose `authorid` is the given user, unchanged. How the listing follows create, edit and delete is stated by the `Store.Listing…` lemmas |
| Routes.Index | server.js:67-75 | an anonymous caller sees the home page; a signed-in caller sees a dashboard of exactly their own posts |
| Routes.LoginAfterRegistration | server.js:99-133 | a user just stored by a clean registration can log in with the same username and password and gets a token for the new row |
| Routes.LoginDoesNotTrimLookup | server.js:92-107 | a username with whitespace at either end passes the emptiness check but is never found among alphanumeric usernames |
| Store.Database.constructor | server.js:12-40 | a new database file has two empty tables, and AUTOINCREMENT hands out 1 first in each; the state satisfies `Valid` |
| Store.Database.Register | server.js:284-364 | with no errors, exactly one user is added under a fresh id, with the trimmed username and the digest of the password, and the caller is signed in as that row; with any error, including a duplicate username, nothing changes and the home page shows the messages in order; posts never change |
| Store.Database.CreatePost | server.js:181-204 | an anonymous caller is redirected and nothing changes; invalid input changes nothing and shows the errors; valid input from a caller without a users row violates the foreign key and changes nothing; otherwise exactly one post is added, under a fresh id with the caller as author, and the caller is redirected to it |
| Store.Database.EditPost | server.js:236-262 | only the author, with valid input, changes a post, and then only its title and body; every other post, every key, and the post's author and date are unchanged; a failing gate redirects to `/`; invalid input shows the errors |
| Store.Database.DeletePost | server.js:265-282 | every path redirects to `/`; the post is removed exactly when the caller is its author; nothing else changes |
| Store.ViewShowsStoredPosts | server.js:206-216 | while every post's author has a row, a post's page shows it, with its author's username, exactly when it is stored |
| Store.ViewAfterCreate | server.js:206-216 | after a create, the new id shows the new post with its author's username; every other page is unchanged |
| Store.ViewAfterEdit | server.js:206-216 | after an edit, the page shows the new title and body with the old author and date; every other page is unchanged |
| Store.ViewAfterDelete | server.js:206-216 | after a delete, the post's page redirects to `/`; every other page is unchanged |
| Store.ListingAfterCreate | server.js:67-72 | a create under a fresh id adds exactly the new post to its author's listing and dashboard; every other listing is unchanged |
| Store.ListingAfterEdit | server.js:67-72 | an edit keeps every listing's posts; the author's listing shows the new title and body; other listings are unchanged |
| Store.ListingAfterDelete | server.js:67-72 | a delete the gate admits removes the post from its author's listing only |
| Scenario.AliceIsAccepted | server.js:292-329 | `alice` with a 20-character password raises no registration error while the name is free, and is refused once it is taken |

## Left out

- The form pages `GET /create-post` and `GET /edit-post/:id` (`server.js:152-154`, `218-234`) are left
  out. They only render a template behind the same gate that the matching POST handler applies.
- Express routing, the middleware plumbing and the response transport are left out. This covers route
  matching, EJS rendering, static files, cookie setting and clearing, `/logout`, `dotenv`, `app.listen`
  and `console.log`. A handler's result is a `Response` value naming the view or the redirect target.
- Token signing and checking (`jsonwebtoken`) are left out. The middleware's outcome is the `Identity`
  parameter: `None` for a missing or invalid cookie, otherwise the decoded `userid` and `username`. The
  token a login issues is the `Claims` value itself.
- bcrypt is left out.
  - Hashing is a function parameter `hash`, so the random salt is not modelled.
  - Checking is a function parameter `verify`. Only `LoginAfterRegistration` and the
    `Scenario.RegisterThenSignIn` walk-through assume that a password verifies against its own digest.
- `sanitize-html` is a function parameter `sanitize`. The model claims nothing about it, neither
  idempotence nor tag stripping. Only the `Scenario` examples assume something: that it leaves the plain
  words they type unchanged, such as `sanitize("Hi") == "Hi"`. `AliceWrites`, `ViewAndEdit`,
  `DeleteTwice` and `OthersAreRefused` require this.
- The SQLite engine, the WAL pragma and the table DDL are replaced by two maps and their counters.
  `CREATE TABLE IF NOT EXISTS` keeps the rows and counters of an existing `ourApp.db` across restarts. The
  constructor models only a new file; every handler needs just `Valid`, which every handler preserves. Of
  the constraints, the model keeps `UNIQUE` on `username` and the `FOREIGN KEY` on `authorid`.
- `users.username` and `posts.title` are declared `STRING`, which gives them NUMERIC affinity in
  SQLite. So a numeric-looking value is stored, and read back, as a number. For example, the title
  `"1e3"` is stored as 1000 and shown as "1000". The model keeps every username and title as the
  submitted string. This holds for `Register`, `CreatePost` and `EditPost`, for `FindUser` and
  `UsernameStored`, for `ViewPost`, `PostsBy` and `Index`, and for the `Store.View…` and
  `Store.Listing…` lemmas: where they say a page shows the new title, they mean the submitted text.
  Two usernames that SQLite would store as the same number are not modelled either.
- The route parameter `:id` is an integer in the model. SQLite's coercion of the text `req.params.id`
  is not modelled.
- The clock is a parameter:
  - `new Date().toISOString()` is the `createdDate` argument of `CreatePost`;
  - `Date.now()` is the `nowMs` argument of `Login` and `Register`.
- Index returns the author's posts as a map from id to post. The row order of
  `SELECT * FROM posts WHERE authorid = ?` is not modelled.
- Concurrent requests are not modelled. Each handler runs to completion on the store.
