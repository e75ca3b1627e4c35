/** The server's request router: `respond` and `not_found` in
    server/src/main.rs. A request is its method and its path; the document is
    the JSON value loaded at startup. The router answers with a status and a
    body, or the handler panics (an `unwrap` or a vector index out of range),
    in which case no response is built. */
module Router {
  import opened Wrappers
  import opened Strings
  import opened Json

  /** The version string `GET /version` answers with. */
  const API_VERSION: string := "1.0"

  const OK: nat := 200
  const NOT_FOUND: nat := 404

  /** Every error body starts with this. */
  const NOT_FOUND_PREFIX: string := "404 Not found: "

  /** The reason given for a path that does not start with '/'. */
  const INVALID_FORMAT: string := "invalid HTTP GET request format"

  /** An HTTP request method, as hyper distinguishes them. */
  datatype Method =
    | Options | Get | Post | Put | Delete | Head | Trace | Connect | Patch
    | Extension(name: string)

  /** Why the handler panics instead of answering. */
  datatype PanicReason =
    | IndexOutOfBounds(index: nat, len: nat)  // the path piece `bits[index]` of only `len` pieces
    | UsersNotAMap                            // `db["users"]` does not re-read as a map

  /** What handling one request comes to. */
  datatype Outcome =
    | Reply(status: nat, body: string)
    | Panic(reason: PanicReason)

  /** The reason given for an endpoint the router does not serve. */
  function UnknownEndpoint(name: string): string
  {
    "unknown API endpoint: " + name
  }

  /** The reason given for a user the document does not hold. */
  function NoSuchUser(user: string): string
  {
    "user " + user + " doesn't exist"
  }

  /** A 404 response whose body is the common prefix followed by `msg`. */
  function NotFound(msg: string): Outcome
  {
    Reply(NOT_FOUND, NOT_FOUND_PREFIX + msg)
  }

  /** The pieces of a request path between slashes. */
  function Pieces(path: string): (bits: seq<string>)
    ensures |bits| >= 1
  {
    Split(path, '/')
  }

  /** Handles one request. Only `GET /version` and `GET /user_info/<user>`
      are served; every answer is a 200 to a GET or a 404 with the common
      prefix. */
  function Respond(verb: Method, path: string, db: Value): (o: Outcome)
    ensures o.Reply? ==> o.status == OK || o.status == NOT_FOUND
    ensures o.Reply? && o.status == NOT_FOUND ==> NOT_FOUND_PREFIX <= o.body
    ensures o.Reply? && o.status == OK ==> verb == Get
  {
    var bits := Pieces(path);
    if bits[0] != "" then NotFound(INVALID_FORMAT)
    else if |bits| < 2 then Panic(IndexOutOfBounds(1, |bits|))
    else
      // the source's `match (req.method(), bits[1])`, arm by arm
      if verb == Get && bits[1] == "version" then Reply(OK, API_VERSION)
      else if verb == Get && bits[1] == "user_info" then
        if |bits| < 3 then Panic(IndexOutOfBounds(2, |bits|))
        else
          var user := bits[2];
          match AsStringMap(Field(db, "users"))
          case None => Panic(UsersNotAMap)
          case Some(users) =>
            if user !in users then NotFound(NoSuchUser(user))
            else Reply(OK, Serialize(users[user]))
      else NotFound(UnknownEndpoint(bits[1]))
  }

  // Paths and their pieces

  /** A path starts with '/' exactly when its first piece is empty and it has
      a second one; the only other path with an empty first piece is "". */
  lemma LeadingSlash(path: string)
    ensures (path != "" && path[0] == '/') <==> (Pieces(path)[0] == "" && |Pieces(path)| >= 2)
    ensures (Pieces(path)[0] == "" && |Pieces(path)| < 2) <==> path == ""
  {
    FirstPieceEmpty(path, '/');
    if Pieces(path)[0] == "" && |Pieces(path)| < 2 {
      OnePieceEmpty(path, '/');
    }
  }

  /** The first two pieces of "/<name>" followed by nothing or by '/'. */
  lemma TwoPieces(name: string, rest: string)
    requires '/' !in name
    requires rest == "" || rest[0] == '/'
    ensures |Pieces("/" + name + rest)| >= 2
    ensures Pieces("/" + name + rest)[0] == "" && Pieces("/" + name + rest)[1] == name
  {
    assert Join(["", name], '/') == "/" + name;
    SplitLeading(["", name], rest, '/');
  }

  /** The first three pieces of "/<name>/<arg>" followed by nothing or by '/'. */
  lemma ThreePieces(name: string, arg: string, rest: string)
    requires '/' !in name && '/' !in arg
    requires rest == "" || rest[0] == '/'
    ensures |Pieces("/" + name + "/" + arg + rest)| >= 3
    ensures Pieces("/" + name + "/" + arg + rest)[..3] == ["", name, arg]
  {
    assert ["", name, arg][1..] == [name, arg] && [name, arg][1..] == [arg];
    assert Join([name, arg], '/') == name + "/" + arg;
    assert Join(["", name, arg], '/') == "/" + name + "/" + arg;
    SplitLeading(["", name, arg], rest, '/');
  }

  lemma NotFoundInjective(a: string, b: string)
    requires NotFound(a) == NotFound(b)
    ensures a == b
  {
    assert a == NotFound(a).body[|NOT_FOUND_PREFIX|..];
  }

  lemma UnknownEndpointInjective(a: string, b: string)
    ensures NotFound(UnknownEndpoint(a)) == NotFound(UnknownEndpoint(b)) <==> a == b
  {
    if NotFound(UnknownEndpoint(a)) == NotFound(UnknownEndpoint(b)) {
      NotFoundInjective(UnknownEndpoint(a), UnknownEndpoint(b));
      assert a == UnknownEndpoint(a)[22..];
      assert b == UnknownEndpoint(b)[22..];
    }
  }

  /** `db["users"]` re-reads as a map exactly when the document is an object
      whose `users` member is itself an object, and then it is that member's
      map; in every other document, `{}` included, the re-read fails. */
  lemma UsersMap(db: Value)
    ensures AsStringMap(Field(db, "users")).Some? <==>
      (db.Object? && "users" in db.fields && db.fields["users"].Object?)
    ensures AsStringMap(Field(db, "users")).Some? ==>
      AsStringMap(Field(db, "users")).value == db.fields["users"].fields
  {
  }

  // The properties of Respond

  /** A path that does not start with '/' (the empty path aside) is refused
      as malformed, whatever the method and the document, and nothing else is
      answered that way. */
  lemma InvalidFormat(verb: Method, path: string, db: Value)
    ensures Respond(verb, path, db) == NotFound(INVALID_FORMAT) <==> (path != "" && path[0] != '/')
  {
    FirstPieceEmpty(path, '/');
    var o := Respond(verb, path, db);
    var k := |NOT_FOUND_PREFIX|;
    assert NotFound(INVALID_FORMAT).body[k] == 'i';
    if Pieces(path)[0] == "" {
      assert o.Panic? || o.status == OK || o.body[k] == 'u';
    }
  }

  /** `GET /version`, with or without further pieces, answers 200 with the
      version string whatever the document holds. */
  lemma Version(rest: string, db: Value)
    requires rest == "" || rest[0] == '/'
    ensures Respond(Get, "/version" + rest, db) == Reply(OK, API_VERSION)
  {
    TwoPieces("version", rest);
    assert "/" + "version" + rest == "/version" + rest;
  }

  /** The pieces of "/user_info/<user>" followed by nothing or by '/'. */
  lemma UserInfoPieces(user: string, rest: string)
    requires '/' !in user
    requires rest == "" || rest[0] == '/'
    ensures |Pieces("/user_info/" + user + rest)| >= 3
    ensures Pieces("/user_info/" + user + rest)[0] == ""
    ensures Pieces("/user_info/" + user + rest)[1] == "user_info"
    ensures Pieces("/user_info/" + user + rest)[2] == user
  {
    ThreePieces("user_info", user, rest);
    assert "/" + "user_info" + "/" + user + rest == "/user_info/" + user + rest;
  }

  /** `GET /user_info/<user>` for a user the document's `users` object holds
      answers 200 with that user's record as JSON text. */
  lemma UserFound(user: string, rest: string, db: Value)
    requires '/' !in user
    requires rest == "" || rest[0] == '/'
    requires Field(db, "users").Object? && user in Field(db, "users").fields
    ensures Respond(Get, "/user_info/" + user + rest, db)
         == Reply(OK, Serialize(Field(db, "users").fields[user]))
  {
    UserInfoPieces(user, rest);
  }

  /** `GET /user_info/<user>` for a user the `users` object lacks (keys are
      compared exactly) answers 404 naming the user. */
  lemma UserMissing(user: string, rest: string, db: Value)
    requires '/' !in user
    requires rest == "" || rest[0] == '/'
    requires Field(db, "users").Object? && user !in Field(db, "users").fields
    ensures Respond(Get, "/user_info/" + user + rest, db) == NotFound(NoSuchUser(user))
  {
    UserInfoPieces(user, rest);
  }

  /** Only the first three pieces of a path are read: once a path has three,
      appending more leaves the outcome unchanged, for every method. */
  lemma ExtraPiecesIgnored(verb: Method, path: string, extra: string, db: Value)
    requires |Pieces(path)| >= 3
    ensures Respond(verb, path + "/" + extra, db) == Respond(verb, path, db)
  {
    SplitConcat(path, extra, '/');
    assert path + "/" + extra == path + ['/'] + extra;
    var longer := Pieces(path + "/" + extra);
    assert longer[..3] == Pieces(path)[..3];
    assert longer[0] == Pieces(path)[0] && longer[1] == Pieces(path)[1] && longer[2] == Pieces(path)[2];
  }

  /** Every request with a leading '/' other than `GET version` and
      `GET user_info` is an unknown endpoint named by its second piece, and
      no other request is answered that way. */
  lemma UnknownEndpointExactly(verb: Method, path: string, name: string, db: Value)
    ensures Respond(verb, path, db) == NotFound(UnknownEndpoint(name)) <==>
      (path != "" && path[0] == '/' && |Pieces(path)| >= 2 && Pieces(path)[1] == name
       && !(verb == Get && (name == "version" || name == "user_info")))
  {
    LeadingSlash(path);
    var o := Respond(verb, path, db);
    var bits := Pieces(path);
    var k := |NOT_FOUND_PREFIX|;
    var target := NotFound(UnknownEndpoint(name));
    assert target.body[k] == 'u' && target.body[k + 1] == 'n';
    if bits[0] != "" {
      assert o.body[k] == 'i';
    } else if |bits| >= 2 && verb == Get && bits[1] == "user_info" {
      assert o.Panic? || o.status == OK || o.body[k + 1] == 's';
    } else if |bits| >= 2 && !(verb == Get && bits[1] == "version") {
      UnknownEndpointInjective(bits[1], name);
    }
  }

  /** The handler panics exactly for the empty path (no second piece), and
      for `GET user_info` when there is no third piece or when the document's
      `users` is not an object. */
  lemma PanicsExactly(verb: Method, path: string, db: Value)
    ensures Respond(verb, path, db).Panic? <==>
      (path == ""
       || (path[0] == '/' && |Pieces(path)| >= 2 && verb == Get && Pieces(path)[1] == "user_info"
           && (|Pieces(path)| < 3 || !Field(db, "users").Object?)))
  {
    LeadingSlash(path);
  }

  /** Exactly which requests are answered 200, and with what body. */
  lemma Served(verb: Method, path: string, db: Value)
    ensures Respond(verb, path, db).Reply? && Respond(verb, path, db).status == OK <==>
      (verb == Get && path != "" && path[0] == '/' && |Pieces(path)| >= 2
       && (Pieces(path)[1] == "version"
           || (Pieces(path)[1] == "user_info" && |Pieces(path)| >= 3
               && Field(db, "users").Object? && Pieces(path)[2] in Field(db, "users").fields)))
    ensures Respond(verb, path, db).Reply? && Respond(verb, path, db).status == OK ==>
      Respond(verb, path, db).body ==
        if Pieces(path)[1] == "version" then API_VERSION
        else Serialize(Field(db, "users").fields[Pieces(path)[2]])
  {
    LeadingSlash(path);
  }

  // Specific requests

  /** The empty path panics on its missing second piece. */
  lemma EmptyPathPanics(verb: Method, db: Value)
    ensures Respond(verb, "", db) == Panic(IndexOutOfBounds(1, 1))
  {
  }

  /** Of the paths "/<name>" with no further piece, only `GET /user_info`
      panics, on its missing third piece. */
  lemma UserInfoWithoutUserPanics(verb: Method, name: string, db: Value)
    requires '/' !in name
    ensures Respond(verb, "/" + name, db).Panic? <==> (verb == Get && name == "user_info")
    ensures verb == Get && name == "user_info" ==> Respond(verb, "/" + name, db) == Panic(IndexOutOfBounds(2, 2))
  {
    assert Join(["", name], '/') == "/" + name;
    SplitJoin(["", name], '/');
  }

  /** With the empty document `{}`, which startup uses when the data file
      cannot be opened, `users` is null, so every user lookup panics rather
      than answering 404. */
  lemma EmptyDocumentPanics(user: string, rest: string)
    requires '/' !in user
    requires rest == "" || rest[0] == '/'
    ensures Respond(Get, "/user_info/" + user + rest, Object(map[])) == Panic(UsersNotAMap)
  {
    UserInfoPieces(user, rest);
  }

  /** The clients' `GET /sort/<field>` is not served by this router. */
  lemma SortIsUnknown(field: string, rest: string, db: Value)
    requires '/' !in field
    requires rest == "" || rest[0] == '/'
    ensures Respond(Get, "/sort/" + field + rest, db) == NotFound(UnknownEndpoint("sort"))
  {
    ThreePieces("sort", field, rest);
    assert "/" + "sort" + "/" + field + rest == "/sort/" + field + rest;
  }

  /** A request with any method but GET is an unknown endpoint, whatever its
      endpoint name; the clients' `POST /create_account` is one. */
  lemma OnlyGetServed(verb: Method, name: string, rest: string, db: Value)
    requires verb != Get
    requires '/' !in name
    requires rest == "" || rest[0] == '/'
    ensures Respond(verb, "/" + name + rest, db) == NotFound(UnknownEndpoint(name))
  {
    TwoPieces(name, rest);
  }
}
