/**
 * Clients of the model: the walk-through of registering, signing in,
 * creating, viewing, editing and deleting a post, and other callers who are
 * refused, each concluded from the contracts alone. Every database state is
 * reached through the handlers, starting from empty tables.
 */
module Scenario {
  import opened Wrappers
  import opened JsText
  import opened Validation
  import opened Records
  import opened Routes
  import opened Store

  const Password := "correcthorsebattery1"
  const Created := "2026-01-01T00:00:00.000Z"

  /** `alice` with a 20-character password passes every registration check while the name is free. */
  lemma AliceIsAccepted()
    ensures Trim("alice") == "alice"
    ensures RegistrationErrors("alice", Password, false) == []
    ensures RegistrationErrors("alice", Password, true) != []
  {
    assert MatchesAlphanumeric("alice");
    TrimAlphanumeric("alice");
    AlphanumericLength("alice");
    JsLengthOfBmp(Password);
    RegistrationAccepted("alice", Password, false);
    RegistrationAccepted("alice", Password, true);
  }

  /** `bob`, the shortest allowed length, is accepted too. */
  lemma BobIsAccepted()
    ensures Trim("bob") == "bob"
    ensures RegistrationErrors("bob", Password, false) == []
  {
    assert MatchesAlphanumeric("bob");
    TrimAlphanumeric("bob");
    AlphanumericLength("bob");
    JsLengthOfBmp(Password);
    RegistrationAccepted("bob", Password, false);
  }

  /** The words the walk-through types have nothing to trim. */
  lemma PlainWords()
    ensures Trim("Hi") == "Hi" && Trim("World") == "World"
    ensures Trim("Hi2") == "Hi2" && Trim("World2") == "World2"
  {
  }

  /** `alice` (id 1) and then `bob` (id 2) register on an empty database. */
  method SignUpAliceAndBob(hash: string -> string) returns (db: Database)
    ensures fresh(db) && db.Valid()
    ensures db.users == map[1 := User("alice", hash(Password)), 2 := User("bob", hash(Password))]
    ensures db.posts == map[] && db.nextUserId == 3 && db.nextPostId == 1
  {
    db := new Database();
    AliceIsAccepted();
    var r := db.Register(JsString("alice"), JsString(Password), hash, 0);
    BobIsAccepted();
    assert !UsernameStored(db.users, "bob");
    r := db.Register(JsString("bob"), JsString(Password), hash, 0);
  }

  /** After registering, `alice` signs in with the same credentials; registering her name again is refused. */
  method RegisterThenSignIn(hash: string -> string, verify: (string, string) -> bool)
    requires verify(Password, hash(Password))
  {
    var db := SignUpAliceAndBob(hash);
    var login := Login(db.users, JsString("alice"), JsString(Password), verify, 0);
    assert db.users[1].username == "alice";
    assert login == SignIn(Claims(Expiry(0), "blue", 1, "alice"), Home);

    var before := db.users;
    AliceIsAccepted();
    assert UsernameStored(before, "alice");
    var r := db.Register(JsString("alice"), JsString(Password), hash, 0);
    assert db.users == before && r.Render?;
  }

  /** `alice` writes her first post, which gets id 1. */
  method AliceWrites(hash: string -> string, sanitize: string -> string) returns (db: Database)
    requires sanitize("Hi") == "Hi" && sanitize("World") == "World"
    ensures fresh(db) && db.Valid()
    ensures db.users == map[1 := User("alice", hash(Password)), 2 := User("bob", hash(Password))]
    ensures db.posts == map[1 := Post(Created, "Hi", "World", 1)]
  {
    db := SignUpAliceAndBob(hash);
    PlainWords();
    var r := db.CreatePost(Some(Caller(1, "alice")), JsString("Hi"), JsString("World"), sanitize, Created);
    assert r == Redirect(PostPage(1));
  }

  /** The author views her post and her dashboard, edits the post, and views it again. */
  method ViewAndEdit(hash: string -> string, sanitize: string -> string)
    requires sanitize("Hi") == "Hi" && sanitize("World") == "World"
    requires sanitize("Hi2") == "Hi2" && sanitize("World2") == "World2"
  {
    var db := AliceWrites(hash, sanitize);
    var alice := Some(Caller(1, "alice"));
    var r := ViewPost(db.users, db.posts, 1);
    assert r == SinglePost(1, Post(Created, "Hi", "World", 1), "alice");
    r := Index(alice, db.posts);
    assert r.Dashboard? && r.posts.Keys == {1};

    PlainWords();
    r := db.EditPost(alice, 1, JsString("Hi2"), JsString("World2"), sanitize);
    assert r == Redirect(PostPage(1));
    r := ViewPost(db.users, db.posts, 1);
    assert r == SinglePost(1, Post(Created, "Hi2", "World2", 1), "alice");
  }

  /** The author deletes her post; its view then redirects, and deleting again changes nothing. */
  method DeleteTwice(hash: string -> string, sanitize: string -> string)
    requires sanitize("Hi") == "Hi" && sanitize("World") == "World"
  {
    var db := AliceWrites(hash, sanitize);
    var alice := Some(Caller(1, "alice"));
    var r := db.DeletePost(alice, 1);
    r := ViewPost(db.users, db.posts, 1);
    assert r == Redirect(Home);
    r := db.DeletePost(alice, 1);
    assert r == Redirect(Home) && db.posts == map[];
  }

  /**
   * `bob`, an anonymous caller and a token whose user has no row can neither
   * change nor add posts.
   */
  method OthersAreRefused(hash: string -> string, sanitize: string -> string)
    requires sanitize("Hi") == "Hi" && sanitize("World") == "World"
  {
    var db := AliceWrites(hash, sanitize);
    var bob := Some(Caller(2, "bob"));
    var r := db.EditPost(bob, 1, JsString("Hi"), JsString("World"), sanitize);
    assert r == Redirect(Home);
    r := db.DeletePost(bob, 1);
    r := db.EditPost(None, 1, JsString("Hi"), JsString("World"), sanitize);
    r := db.DeletePost(None, 1);
    r := db.CreatePost(None, JsString("Hi"), JsString("World"), sanitize, Created);
    assert r == Redirect(Home);

    PlainWords();
    r := db.CreatePost(Some(Caller(99, "gone")), JsString("Hi"), JsString("World"), sanitize, Created);
    assert r == ServerError;
    assert db.posts == map[1 := Post(Created, "Hi", "World", 1)];
  }
}
