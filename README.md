# debird-app server: request router

A Dafny model of the request router of the debird-app API server
(`server/src/main.rs`). The server loads a JSON document once at startup
and answers each HTTP request from it using `respond`:

- the path is split on `/` the way Rust's `str::split` splits it, empty
  pieces included;
- a path whose first piece is not empty (one that does not start with `/`)
  gets `404 Not found: invalid HTTP GET request format`;
- `GET version` answers 200 with the constant `1.0`;
- `GET user_info` looks up the third piece in the document's `users`
  object. It answers 200 with that user's record as JSON text, or
  `404 Not found: user <u> doesn't exist`;
- any other (method, second piece) pair gets
  `404 Not found: unknown API endpoint: <second piece>`.

The handler can also panic instead of answering. This happens when the path
is empty (`bits[1]` is out of range), when `GET user_info` has no third piece
(`bits[2]` is out of range), and when `db["users"]` is not an object. The
last case includes the empty document `{}` that startup uses when `db.json`
cannot be opened. The model returns `Panic(reason)` in these cases.

Modules:

- `Strings` (strings.dfy): `Split` and its inverse `Join`, with lemmas that
  each determines the other.
- `StringOrder` (order.dfy): the key order of serde_json's default map, and
  `SortedKeys`.
- `Json` (json.dfy): the JSON value, `v[key]` indexing (`Field`), the re-read
  of `db["users"]` as a map (`AsStringMap`) and compact serialisation
  (`Serialize`), with string escaping and its inverse.
- `Router` (router.dfy): `NotFound`, `Respond` and the lemmas about them.
- `Wrappers` (wrappers.dfy): `Option`.

`Respond` is a function of (method, path, document) alone. Repeating a
request therefore gives the same outcome.

This version of the server lacks some behaviour that its clients or a reader
might expect. The model follows the code:

- There is no argument-count check. `/user_info/a/x` is answered like
  `/user_info/a`, and `/user_info` panics instead of answering 404.
- There is no `/sort` endpoint. The clients' `GET /sort/<field>` and
  `POST /create_account` are unknown endpoints.
- With the empty document `{}`, `GET /user_info/alice` panics. It does not
  answer 404, because `db["users"]` is then `null`, which does not read as a map.

## Model

| member | source | states |
|---|---|---|
| Strings.Split | server/src/main.rs:27-28 | definition: the pieces of a string between separators, in order, with empty pieces kept, as Rust's `split` gives them; its properties are the lemmas below |
| Strings.SplitCount | server/src/main.rs:27-28 | the path splits into one more piece than it has slashes |
| Strings.SplitPiecesFree | server/src/main.rs:27-28 | no piece of a split contains a slash |
| Strings.JoinSplit | server/src/main.rs:27-28 | joining the pieces with `/` gives back the path, so no character is lost or added |
| Strings.SplitJoin | server/src/main.rs:27-28 | any non-empty sequence of slash-free pieces is the split of its join, so the split is the only such decomposition |
| Strings.SplitConcat | server/src/main.rs:27-28 | splitting `a/b` gives the pieces of `a` followed by the pieces of `b` |
| Strings.SplitWithoutSeparator | server/src/main.rs:27-28 | a string without a slash is one piece |
| Strings.SplitLeading | server/src/main.rs:27-28 | text that is empty or starts with a slash, appended to a join, leaves the leading pieces unchanged |
| Strings.FirstPieceEmpty | server/src/main.rs:27-30 | the first piece is empty exactly when the path is empty or starts with `/` |
| Strings.OnePieceEmpty | server/src/main.rs:27-34 | a single empty piece comes only from the empty path |
| StringOrder.Least | server/src/main.rs:51 | the least key of a non-empty key set is in the set and precedes every other member |
| StringOrder.SortedKeys | server/src/main.rs:51 | object keys are listed once each, strictly ascending in code-point order |
| Json.Field | server/src/main.rs:45 | definition of serde_json's `v[key]`: the member's value, or null when `v` is not an object or lacks the key; used through Router.UsersMap |
| Json.AsStringMap | server/src/main.rs:45 | definition of the `from_str::<HashMap<String, Value>>(&v.to_string())` re-read: the members of an object, nothing for any other value; its consequences are Router.UsersMap, UserFound, UserMissing, PanicsExactly and EmptyDocumentPanics |
| Json.EscapeChar | server/src/main.rs:51 | definition of how serde_json writes one character in a string literal: a two-character escape for the quote, the backslash, backspace, form feed, newline, return and tab, `\u00XX` with lower-case hex for the other characters below U+0020, and the character itself otherwise; its read-back is Json.UnescapeChar |
| Json.Escape | server/src/main.rs:51 | definition: the body of a string literal is the escapes of its characters in order; its read-back is Json.UnescapeEscape |
| Json.UnescapeChar | server/src/main.rs:51 | the escaped form of any character reads back as that character, whatever follows it |
| Json.UnescapeEscape | server/src/main.rs:51 | escaping a string for a JSON literal is undone by reading the literal back |
| Json.Quote | server/src/main.rs:51 | a string literal is delimited by quotes and its body reads back as the string |
| Json.Serialize | server/src/main.rs:51 | arrays are written between brackets and objects between braces; a string is written as a literal that reads back as the string |
| Router.NotFound | server/src/main.rs:19-24 | definition of `not_found`: status 404 and the body `404 Not found: ` followed by the reason; its properties are Router.NotFoundInjective and Respond's 404-prefix clause |
| Router.UnknownEndpoint | server/src/main.rs:55 | definition of the reason `unknown API endpoint: <name>`; see Router.UnknownEndpointExactly and UnknownEndpointInjective |
| Router.NoSuchUser | server/src/main.rs:48 | definition of the reason `user <u> doesn't exist`; see Router.UserMissing |
| Router.Pieces | server/src/main.rs:27-28 | the collected pieces of the path split on `/`, of which there is always at least one, so `bits[0]` never fails |
| Router.NotFoundInjective | server/src/main.rs:19-24 | two error responses are equal only when their reasons are |
| Router.Respond | server/src/main.rs:26-58 | every answer is either 200 to a GET or 404 with a body starting `404 Not found: ` |
| Router.UsersMap | server/src/main.rs:45 | the re-read of `db["users"]` succeeds exactly when the document is an object whose `users` member is an object, and then gives that member's map; `{}`, a missing `users` and a non-object `users` all fail |
| Router.LeadingSlash | server/src/main.rs:27-34 | a path starts with `/` exactly when its first piece is empty and it has a second piece; the empty path is the only other path with an empty first piece |
| Router.InvalidFormat | server/src/main.rs:27-32 | the invalid-format 404 is given exactly to non-empty paths that do not start with `/`, whatever the method and document |
| Router.Version | server/src/main.rs:34-37 | `GET /version`, with or without further pieces, answers 200 with `1.0` whatever the document holds |
| Router.UserFound | server/src/main.rs:39-51 | `GET /user_info/<u>` answers 200 with the serialised record when `users` is an object holding key `u` |
| Router.UserMissing | server/src/main.rs:45-49 | `GET /user_info/<u>` answers `404 Not found: user <u> doesn't exist` when `users` is an object without key `u` |
| Router.ExtraPiecesIgnored | server/src/main.rs:34-55 | once a path has three pieces, appending `/<anything>` does not change the outcome for any method |
| Router.UnknownEndpointExactly | server/src/main.rs:34-55 | the unknown-endpoint 404 naming `x` is given exactly to paths starting with `/` whose second piece is `x`, unless the request is `GET version` or `GET user_info` |
| Router.UnknownEndpointInjective | server/src/main.rs:54-55 | two unknown-endpoint responses are equal exactly when they name the same endpoint |
| Router.PanicsExactly | server/src/main.rs:34-45 | the handler panics exactly for the empty path, and for `GET user_info` when it has no third piece or `users` is not an object |
| Router.Served | server/src/main.rs:34-51 | exactly which requests get 200: `GET version`, and `GET user_info` for a user the `users` object holds; the body is `1.0` or that user's serialised record |
| Router.EmptyPathPanics | server/src/main.rs:34 | the empty path panics on `bits[1]` with one piece |
| Router.UserInfoWithoutUserPanics | server/src/main.rs:39-40 | of the paths `/<name>` with no further piece, exactly `GET /user_info` panics, on `bits[2]` with two pieces |
| Router.EmptyDocumentPanics | server/src/main.rs:45 | with the empty document `{}` (the fallback at main.rs:72), every user lookup panics instead of answering 404 |
| Router.SortIsUnknown | pwa/index.js:71 | the clients' `GET /sort/<field>` is answered as the unknown endpoint `sort` |
| Router.OnlyGetServed | server/src/main.rs:34-55 | a request with any method other than GET is answered as an unknown endpoint named by its second piece, even for `version` and `user_info`; the clients' `POST /create_account` (pwa/index.js:60) is one |

## Left out

- `main` (server/src/main.rs:61-90): opening `db.json`, parsing it with serde, binding 127.0.0.1:6969 and serving with hyper and tokio are file I/O and networking. The parsed document is a parameter of `Respond`.
- The `println!` trace at server/src/main.rs:41: logging only.
- The unused `DBUser` struct (server/src/main.rs:14-17).
- The browser clients `index.js` and `pwa/index.js`: asynchronous `XMLHttpRequest` calls, DOM updates and key generation. Only the requests they send appear, in `SortIsUnknown` and `OnlyGetServed`.
- The `hyper::Error` side of `respond`'s result: `respond` never produces one, so `Outcome` has no such case.
- What a panic does to the connection: the model records that the handler panicked and why, not how hyper and tokio react.
- Json.AsStringMap: does not model the text round trip at server/src/main.rs:45. It assumes serde_json reads its own output for an object back as the same map. That can fail for floating-point numbers, because serde_json's default float parser does not promise an exact round trip of every `f64`.
- Json.Serialize: numbers are kept as the text serde_json prints for them, so integer and floating-point formatting is not modelled. Key order follows the default B-tree map, not the `preserve_order` feature.
- Json.Unescape: reads back only what escaping needs. It rejects `\u` escapes of surrogates rather than pairing them.
- The path is any string. An origin-form request target always gives a path starting with `/`. An authority-form target, such as `CONNECT example.com:443`, gives the empty path, which panics at `bits[1]` (Router.EmptyPathPanics).
