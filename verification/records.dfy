/**
 * The values the handlers exchange: table rows, the caller's identity, the
 * claims of a session token, and the responses the handlers end in.
 */
module Records {
  import opened Wrappers

  /** A row of the `users` table; the map key holding it is its `id`. `password` holds the bcrypt digest. */
  datatype User = User(username: string, password: string)

  /** A row of the `posts` table; the map key holding it is its `id`. */
  datatype Post = Post(createdDate: string, title: string, body: string, authorid: int)

  /** What a valid session cookie decodes to (`req.user`). */
  datatype Caller = Caller(userid: int, username: string)

  /** `req.user`: the decoded caller, or None for the `false` an absent or invalid token yields. */
  type Identity = Option<Caller>

  /** The claims signed into a new session token. */
  datatype Claims = Claims(exp: int, skyColor: string, userid: int, username: string)

  /** Redirect targets: `/` and `/post/<id>`. */
  datatype Location = Home | PostPage(id: int)

  /** How a handler ends. */
  datatype Response =
    | Redirect(to: Location)
    | SignIn(token: Claims, to: Location)            // sets the session cookie, then redirects
    | Render(view: string, errors: seq<string>)      // a form page with its error list
    | Dashboard(posts: map<int, Post>)               // dashboard.ejs with the caller's posts
    | SinglePost(id: int, post: Post, author: string) // single-post.ejs
    | ServerError                                    // a statement threw; Express answers 500

  /** The UNIQUE constraint on `users.username`. */
  predicate UniqueUsernames(users: map<int, User>)
  {
    forall i, j :: i in users && j in users && users[i].username == users[j].username ==> i == j
  }

  /**
   * The FOREIGN KEY of `posts.authorid` on `users.id`, which better-sqlite3
   * enforces: every post's author has a row.
   */
  predicate AuthorsExist(users: map<int, User>, posts: map<int, Post>)
  {
    forall id :: id in posts ==> posts[id].authorid in users
  }

  /** `SELECT * FROM users WHERE username = ?` finds a row. */
  predicate UsernameStored(users: map<int, User>, name: string)
  {
    exists id :: id in users && users[id].username == name
  }

  /** Lifetime of a session token, in seconds. */
  const SessionSeconds := 60 * 60 * 24

  /** `Math.floor(Date.now() / 1000) + 60 * 60 * 24` for a clock reading in milliseconds. */
  function Expiry(nowMs: int): int
  {
    nowMs / 1000 + SessionSeconds
  }
}
