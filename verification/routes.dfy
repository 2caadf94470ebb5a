/**
 * The handler logic that only reads: the login decision, the authorization
 * gate, the single-post view and the dashboard listing.
 */
module Routes {
  import opened Wrappers
  import opened JsText
  import opened Validation
  import opened Records

  const LoginFailed := "invalid username / password."
  const LoginUnknownUser := "Invalid username / password."

  /** `SELECT * FROM users WHERE username = ?`: the id of the row with that exact username. */
  function FindUser(users: map<int, User>, name: string): (found: Option<int>)
    requires UniqueUsernames(users)
    ensures found.Some? <==> UsernameStored(users, name)
    ensures found.Some? ==> found.value in users && users[found.value].username == name
  {
    if UsernameStored(users, name) then
      var id :| id in users && users[id].username == name; Some(id)
    else None
  }

  /**
   * The `/login` handler: coerce both fields; an empty trimmed username or an
   * empty password is refused before any lookup; the lookup uses the username
   * as typed (untrimmed); a wrong password renders the form with the still
   * empty error list; otherwise a token for the stored user is issued.
   */
  function Login(users: map<int, User>, username: JsValue, password: JsValue,
                 verify: (string, string) -> bool, nowMs: int): (r: Response)
    requires UniqueUsernames(users)
    ensures var name, pass := Coerce(username), Coerce(password);
      Trim(name) == "" || pass == "" ==> r == Render("login.ejs", [LoginFailed])
    ensures var name, pass := Coerce(username), Coerce(password);
      Trim(name) != "" && pass != "" && !UsernameStored(users, name) ==>
        r == Render("login.ejs", [LoginUnknownUser])
    ensures var name, pass := Coerce(username), Coerce(password);
      (Trim(name) != "" && pass != "" &&
       exists id :: id in users && users[id].username == name && !verify(pass, users[id].password)) ==>
        r == Render("login.ejs", [])
    ensures var name, pass := Coerce(username), Coerce(password);
      r.SignIn? <==>
        Trim(name) != "" && pass != "" &&
        exists id :: id in users && users[id].username == name && verify(pass, users[id].password)
    ensures r.SignIn? ==>
      && r.to == Home
      && r.token.userid in users
      && r.token.username == users[r.token.userid].username == Coerce(username)
      && r.token.exp == Expiry(nowMs) && r.token.skyColor == "blue"
  {
    var name := Coerce(username);
    var pass := Coerce(password);
    var errors := if Trim(name) == "" || pass == "" then [LoginFailed] else [];
    if errors != [] then Render("login.ejs", errors)
    else
      match FindUser(users, name)
      case None => Render("login.ejs", [LoginUnknownUser])
      case Some(id) =>
        if !verify(pass, users[id].password) then Render("login.ejs", errors)
        else SignIn(Claims(Expiry(nowMs), "blue", id, users[id].username), Home)
  }

  /**
   * The gate of the edit and delete handlers (`mustBeLoggedIn`, the lookup and
   * the `post.authorid !== req.user.userid` check): the post the caller may
   * change, if any.
   */
  function OwnedPost(caller: Identity, posts: map<int, Post>, id: int): (owned: Option<Post>)
    ensures owned.Some? <==> caller.Some? && id in posts && posts[id].authorid == caller.value.userid
    ensures owned.Some? ==> owned.value == posts[id]
  {
    if caller.None? then None
    else if id !in posts then None
    else if posts[id].authorid != caller.value.userid then None
    else Some(posts[id])
  }

  /** No two callers with different ids can both pass the gate for the same post. */
  lemma GateAdmitsOnlyTheAuthor(a: Caller, b: Caller, posts: map<int, Post>, id: int)
    requires OwnedPost(Some(a), posts, id).Some? && OwnedPost(Some(b), posts, id).Some?
    ensures a.userid == b.userid == posts[id].authorid
  {
  }

  /**
   * `GET /post/:id`: the post joined with its author's username; a missing
   * post, or one whose author row is missing (the inner join drops it),
   * redirects to `/`.
   */
  function ViewPost(users: map<int, User>, posts: map<int, Post>, id: int): (r: Response)
    ensures r.SinglePost? <==> id in posts && posts[id].authorid in users
    ensures r.SinglePost? ==> r.id == id && r.post == posts[id] && r.author == users[posts[id].authorid].username
    ensures !r.SinglePost? ==> r == Redirect(Home)
  {
    if id in posts && posts[id].authorid in users then
      SinglePost(id, posts[id], users[posts[id].authorid].username)
    else Redirect(Home)
  }

  /** `SELECT * FROM posts WHERE authorid = ?`: the author's posts, keyed by id. */
  function PostsBy(posts: map<int, Post>, authorid: int): (mine: map<int, Post>)
    ensures forall id :: id in mine <==> id in posts && posts[id].authorid == authorid
    ensures forall id :: id in mine ==> mine[id] == posts[id]
  {
    map id | id in posts && posts[id].authorid == authorid :: posts[id]
  }

  /** `GET /`: the caller's dashboard, or the home page for an anonymous caller. */
  function Index(caller: Identity, posts: map<int, Post>): (r: Response)
    ensures caller.None? ==> r == Render("homepage.ejs", [])
    ensures caller.Some? ==> r.Dashboard? && forall id :: id in r.posts <==>
      id in posts && posts[id].authorid == caller.value.userid
    ensures r.Dashboard? ==> forall id :: id in r.posts ==> r.posts[id] == posts[id]
  {
    if caller.Some? then Dashboard(PostsBy(posts, caller.value.userid)) else Render("homepage.ejs", [])
  }

  /**
   * A user that registration has just stored can log in with the same
   * username and password, provided the password verifies against its own
   * digest, and gets a token for the new row.
   */
  lemma LoginAfterRegistration(users: map<int, User>, id: int, name: string, pass: string,
                               hash: string -> string, verify: (string, string) -> bool, nowMs: int)
    requires UniqueUsernames(users) && id !in users
    requires RegistrationErrors(name, pass, UsernameStored(users, name)) == []
    requires verify(pass, hash(pass))
    ensures UniqueUsernames(users[id := User(name, hash(pass))])
    ensures Login(users[id := User(name, hash(pass))], JsString(name), JsString(pass), verify, nowMs)
      == SignIn(Claims(Expiry(nowMs), "blue", id, name), Home)
  {
    var users' := users[id := User(name, hash(pass))];
    RegistrationAccepted(name, pass, UsernameStored(users, name));
    TrimAlphanumeric(name);
    assert id in users' && users'[id].username == name;
    var r := Login(users', JsString(name), JsString(pass), verify, nowMs);
    assert r.SignIn?;
  }

  /**
   * The lookup uses the username as typed: when every stored username is
   * alphanumeric, a username typed with a space (or other whitespace) at
   * either end is never found, although the emptiness check trims it.
   */
  lemma LoginDoesNotTrimLookup(users: map<int, User>, name: string, pass: string,
                               verify: (string, string) -> bool, nowMs: int)
    requires UniqueUsernames(users)
    requires forall id :: id in users ==> MatchesAlphanumeric(users[id].username)
    requires name != [] && (IsJsWhitespace(name[0]) || IsJsWhitespace(name[|name| - 1]))
    requires Trim(name) != "" && pass != ""
    ensures Login(users, JsString(name), JsString(pass), verify, nowMs) == Render("login.ejs", [LoginUnknownUser])
  {
  }
}
