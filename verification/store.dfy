/**
 * The handlers that change the database: `/register` inserts a user;
 * `/create-post`, `edit-post/:id` and `/delete-post/:id` insert, update and
 * delete posts. The two tables are maps from id to row, each with the
 * AUTOINCREMENT counter that hands out the next id.
 */
module Store {
  import opened Wrappers
  import opened JsText
  import opened Validation
  import opened Records
  import opened Routes

  class Database {
    var users: map<int, User>
    var posts: map<int, Post>
    var nextUserId: int
    var nextPostId: int

    /**
     * Ids are positive and below their counter (so a new id is fresh); every
     * stored username passed registration and is unique; every stored post has
     * a non-empty title and body and an author with a row.
     */
    ghost predicate Valid()
      reads this
    {
      && 1 <= nextUserId && 1 <= nextPostId
      && (forall id :: id in users ==> 1 <= id < nextUserId && IsAcceptableUsername(users[id].username))
      && UniqueUsernames(users)
      && (forall id :: id in posts ==> 1 <= id < nextPostId && posts[id].title != "" && posts[id].body != "")
      && AuthorsExist(users, posts)
    }

    /** A new database file: two empty tables, and AUTOINCREMENT hands out 1 first. */
    constructor ()
      ensures Valid()
      ensures users == map[] && posts == map[] && nextUserId == 1 && nextPostId == 1
    {
      users, posts := map[], map[];
      nextUserId, nextPostId := 1, 1;
    }

    /**
     * `POST /register`: on a clean error list, exactly one user is added under
     * a fresh id, with the trimmed username and the digest of the password, and
     * a token for it is issued; otherwise the home page shows the errors and
     * nothing changes. Posts are never touched.
     */
    method Register(username: JsValue, password: JsValue, hash: string -> string, nowMs: int)
      returns (r: Response)
      requires Valid()
      modifies this
      ensures Valid()
      ensures posts == old(posts) && nextPostId == old(nextPostId)
      ensures var name, pass := Trim(Coerce(username)), Coerce(password);
        var errors := RegistrationErrors(name, pass, UsernameStored(old(users), name));
        if errors == [] then
          && old(nextUserId) !in old(users)
          && users == old(users)[old(nextUserId) := User(name, hash(pass))]
          && nextUserId == old(nextUserId) + 1
          && r == SignIn(Claims(Expiry(nowMs), "blue", old(nextUserId), name), Home)
        else
          && users == old(users) && nextUserId == old(nextUserId)
          && r == Render("homepage.ejs", Messages(errors))
      ensures forall id :: id in old(users) ==> id in users && users[id] == old(users)[id]
    {
      var name := Trim(Coerce(username));
      var pass := Coerce(password);
      var taken := UsernameStored(users, name);
      var errors := CollectRegistrationErrors(name, pass, taken);
      if errors != [] {
        return Render("homepage.ejs", Messages(errors));
      }
      RegistrationAccepted(name, pass, taken);
      var id := nextUserId;
      users := users[id := User(name, hash(pass))];
      nextUserId := nextUserId + 1;
      r := SignIn(Claims(Expiry(nowMs), "blue", id, name), Home);
    }

    /**
     * `POST /create-post`: an anonymous caller is redirected to `/`; invalid
     * input re-renders the form with its errors; a caller whose id has no users
     * row (a token outliving its row) makes the INSERT violate the foreign key,
     * so the handler throws and nothing is stored; otherwise exactly one post is
     * added under a fresh id, with the cleaned title and body and the caller as
     * author, and the caller is sent to it. Users are never touched.
     */
    method CreatePost(caller: Identity, title: JsValue, body: JsValue, sanitize: string -> string, createdDate: string)
      returns (r: Response)
      requires Valid()
      modifies this
      ensures Valid()
      ensures users == old(users) && nextUserId == old(nextUserId)
      ensures caller.None? ==> r == Redirect(Home) && posts == old(posts) && nextPostId == old(nextPostId)
      ensures caller.Some? ==>
        var t, b := CleanField(title, sanitize), CleanField(body, sanitize);
        if PostErrors(t, b) != [] then
          && posts == old(posts) && nextPostId == old(nextPostId)
          && r == Render("create-post", PostErrors(t, b))
        else if caller.value.userid !in users then
          && posts == old(posts) && nextPostId == old(nextPostId)
          && r == ServerError
        else
          && old(nextPostId) !in old(posts)
          && posts == old(posts)[old(nextPostId) := Post(createdDate, t, b, caller.value.userid)]
          && nextPostId == old(nextPostId) + 1
          && r == Redirect(PostPage(old(nextPostId)))
      ensures forall id :: id in old(posts) ==> id in posts && posts[id] == old(posts)[id]
    {
      if caller.None? {
        return Redirect(Home);
      }
      var t, b, errors := ValidatePost(title, body, sanitize);
      if errors != [] {
        return Render("create-post", errors);
      }
      if caller.value.userid !in users {
        return ServerError;
      }
      var id := nextPostId;
      posts := posts[id := Post(createdDate, t, b, caller.value.userid)];
      nextPostId := nextPostId + 1;
      r := Redirect(PostPage(id));
    }

    /**
     * `POST edit-post/:id`: unless the caller is signed in and authored the
     * post, a redirect to `/` with nothing changed; invalid input re-renders
     * the form; otherwise only that post's title and body change (its id,
     * author and creation date stay) and the caller is sent to it.
     */
    method EditPost(caller: Identity, id: int, title: JsValue, body: JsValue, sanitize: string -> string)
      returns (r: Response)
      requires Valid()
      modifies this
      ensures Valid()
      ensures users == old(users) && nextUserId == old(nextUserId) && nextPostId == old(nextPostId)
      ensures OwnedPost(caller, old(posts), id).None? ==> r == Redirect(Home) && posts == old(posts)
      ensures OwnedPost(caller, old(posts), id).Some? ==>
        var t, b := CleanField(title, sanitize), CleanField(body, sanitize);
        if PostErrors(t, b) == [] then
          && posts == old(posts)[id := old(posts)[id].(title := t, body := b)]
          && r == Redirect(PostPage(id))
        else
          && posts == old(posts)
          && r == Render("edit-post", PostErrors(t, b))
      ensures posts.Keys == old(posts).Keys
      ensures forall k :: k in old(posts) && k != id ==> posts[k] == old(posts)[k]
      ensures id in old(posts) ==>
        posts[id].authorid == old(posts)[id].authorid && posts[id].createdDate == old(posts)[id].createdDate
    {
      if caller.None? {
        return Redirect(Home);
      }
      if id !in posts {
        return Redirect(Home);
      }
      var post := posts[id];
      if post.authorid != caller.value.userid {
        return Redirect(Home);
      }
      var t, b, errors := ValidatePost(title, body, sanitize);
      if errors != [] {
        return Render("edit-post", errors);
      }
      posts := posts[id := post.(title := t, body := b)];
      r := Redirect(PostPage(id));
    }

    /**
     * `POST /delete-post/:id`: every path ends in a redirect to `/`; the post
     * is removed only when the caller is signed in and authored it, and no
     * other post changes.
     */
    method DeletePost(caller: Identity, id: int) returns (r: Response)
      requires Valid()
      modifies this
      ensures Valid()
      ensures r == Redirect(Home)
      ensures users == old(users) && nextUserId == old(nextUserId) && nextPostId == old(nextPostId)
      ensures posts == if OwnedPost(caller, old(posts), id).Some? then old(posts) - {id} else old(posts)
    {
      if caller.None? {
        return Redirect(Home);
      }
      if id !in posts {
        return Redirect(Home);
      }
      var post := posts[id];
      if post.authorid != caller.value.userid {
        return Redirect(Home);
      }
      posts := posts - {id};
      r := Redirect(Home);
    }
  }

  // What the read-only routes show after each change the handlers above make
  // to the posts table, stated on the new table their contracts give.

  /** Under the foreign key, `GET /post/:id` shows a post exactly when it is stored. */
  lemma ViewShowsStoredPosts(users: map<int, User>, posts: map<int, Post>, id: int)
    requires AuthorsExist(users, posts)
    ensures ViewPost(users, posts, id).SinglePost? <==> id in posts
    ensures id in posts ==> ViewPost(users, posts, id) == SinglePost(id, posts[id], users[posts[id].authorid].username)
  {
  }

  /** After a create by a caller with a users row, the new post is shown with its author's name; other views stay. */
  lemma ViewAfterCreate(users: map<int, User>, posts: map<int, Post>, n: int, p: Post)
    requires p.authorid in users
    ensures ViewPost(users, posts[n := p], n) == SinglePost(n, p, users[p.authorid].username)
    ensures forall k :: k != n ==> ViewPost(users, posts[n := p], k) == ViewPost(users, posts, k)
  {
  }

  /** After an edit, the post is shown with the new title and body and its old author and date; other views stay. */
  lemma ViewAfterEdit(users: map<int, User>, posts: map<int, Post>, id: int, title: string, body: string)
    requires id in posts && posts[id].authorid in users
    ensures var edited := posts[id := posts[id].(title := title, body := body)];
      ViewPost(users, edited, id)
        == SinglePost(id, Post(posts[id].createdDate, title, body, posts[id].authorid), users[posts[id].authorid].username)
    ensures var edited := posts[id := posts[id].(title := title, body := body)];
      forall k :: k != id ==> ViewPost(users, edited, k) == ViewPost(users, posts, k)
  {
  }

  /** After a delete, the post's page redirects to `/`; other views stay. */
  lemma ViewAfterDelete(users: map<int, User>, posts: map<int, Post>, id: int)
    ensures ViewPost(users, posts - {id}, id) == Redirect(Home)
    ensures forall k :: k != id ==> ViewPost(users, posts - {id}, k) == ViewPost(users, posts, k)
  {
  }

  /**
   * After a create under a fresh id, the author's listing gains exactly the
   * new post, which the author's dashboard shows; every other listing stays.
   */
  lemma ListingAfterCreate(posts: map<int, Post>, n: int, p: Post)
    requires n !in posts
    ensures PostsBy(posts[n := p], p.authorid) == PostsBy(posts, p.authorid)[n := p]
    ensures forall a :: a != p.authorid ==> PostsBy(posts[n := p], a) == PostsBy(posts, a)
    ensures forall c: Caller :: c.userid == p.authorid ==>
      Index(Some(c), posts[n := p]) == Dashboard(PostsBy(posts, p.authorid)[n := p])
  {
  }

  /** After an edit, every listing has the same posts, and the author's shows the new title and body. */
  lemma ListingAfterEdit(posts: map<int, Post>, id: int, title: string, body: string)
    requires id in posts
    ensures var edited := posts[id := posts[id].(title := title, body := body)];
      PostsBy(edited, posts[id].authorid) == PostsBy(posts, posts[id].authorid)[id := edited[id]]
    ensures var edited := posts[id := posts[id].(title := title, body := body)];
      forall a :: a != posts[id].authorid ==> PostsBy(edited, a) == PostsBy(posts, a)
  {
  }

  /** A delete the gate admits removes the post from its author's listing only. */
  lemma ListingAfterDelete(caller: Identity, posts: map<int, Post>, id: int)
    requires OwnedPost(caller, posts, id).Some?
    ensures PostsBy(posts - {id}, caller.value.userid) == PostsBy(posts, caller.value.userid) - {id}
    ensures forall a :: a != caller.value.userid ==> PostsBy(posts - {id}, a) == PostsBy(posts, a)
  {
  }
}
