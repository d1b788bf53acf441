# ChatApp: a verified model of the chat store and the chat page's logic

ChatApp is a minimal web chat. A backend keeps two in-memory lists: the
usernames that have joined, with no name listed twice, and the message
history, which only ever grows at its end. It serves them through four
routes: POST/GET `/users` and POST/GET `/messages`. The single-page client
joins with a username and then polls both lists every two seconds. It
sends messages and colours each username with one of 20 palette colours,
chosen by a rolling hash of the name.

This project models that core in Dafny:

- `chat_server.dfy`, module `ChatServer`: the backend's store as a class
  `Store` with two `seq` fields. It has one method per route, and the
  duplicate-free user list is the class invariant `Valid()`. The
  specification function `Joined` gives the user list after a join, and
  `JoinAll` gives it after a series of joins, with lemmas for membership,
  the invariant and idempotence. The server's clock is the
  `time` argument of `PostMessage`.
- `username_color.dfy`, module `UsernameColor`: `getUsernameColor`, taking
  the name as the UTF-16 code units that a JavaScript string consists of.
  - JavaScript's `<<` is modelled as an explicit `ToInt32` wrap around a
    multiplication by 32.
  - The subtraction and addition around it are exact integer arithmetic,
    which is what the source's doubles compute while the hash stays a safe
    integer. The precondition `|units| <= MaxExactUnits` (2^21 code units)
    keeps it one (`HashIsSafe`).
  - The loop is proved against the recursive specification `Hash`. `Hash`
    is proved equal to the left fold `HashFrom`, and congruent modulo 2^32
    to the polynomial hash with base 31.
  - Any code-unit sequence can be coloured, lone surrogates included.
    `ColorOfName` colours a name held as a Dafny string through its
    UTF-16 encoding `Utf16`.
- `js_text.dfy`, module `JsText`: the JavaScript string behaviour the
  client relies on.
  - Strings as UTF-16 code units (`Utf16`), which is what `charCodeAt` reads.
  - `String.prototype.trim` (`Trim`), which strips the WhiteSpace and
    LineTerminator code points of ECMA-262. Its result is the slice of the
    input between a blank prefix and a blank suffix, with neither end white
    space (`IsTrimmed`). It is proved to give `""` exactly for blank
    strings.
- `chat_client.dfy`, module `ChatClient`: the page's component state as a
  class `Client`. Its methods are the two input handlers, `handleJoin`,
  `handleSend` and one tick of the polling refresh.
  - Each HTTP request is one call on the `Store` the client holds.
  - Whether an axios request went through is a boolean argument. A rejected
    `await` skips the rest of its handler, and a fetch that fails leaves its
    list as it was.

POST `/users` accepts any string, the empty one included, so
`Store.JoinUser` has no precondition. The colour hash equals the polynomial
hash `31 * hash + c` only modulo 2^32, because `hash` itself is never
wrapped (`HashMatchesPolynomial`).

## Model

| member | source | states |
|---|---|---|
| `ChatServer.Joined` | server/server.js:14 | A join adds the name exactly when it is absent: it is then appended at the end, the length grows by one and earlier entries stay as they were. Otherwise the list is unchanged. The result holds exactly the old names plus the new one, and it keeps "no duplicates". |
| `ChatServer.JoinAllMembers` | server/server.js:12-16 | A series of joins never drops or reorders an earlier entry. It ends holding exactly the earlier users and the joined names. |
| `ChatServer.JoinAllKeepsInvariant` | server/server.js:9-16 | Any series of joins, starting from a duplicate-free list (the empty list at start-up included), keeps it duplicate-free. |
| `ChatServer.JoinAllOfListed` | server/server.js:14 | Joining names that are all listed already leaves the list unchanged. |
| `ChatServer.JoinIsIdempotent` | server/server.js:14 | Repeating a series of joins, a single join included, leaves the user list as the first round left it. |
| `ChatServer.Store.constructor` | server/server.js:9-10 | Both lists start empty, and the store invariant holds. |
| `ChatServer.Store.JoinUser` | server/server.js:12-16 | POST /users: the user list becomes `Joined(old users, name)` and the invariant is kept. The message list is unchanged. |
| `ChatServer.Store.ListUsers` | server/server.js:18-20 | GET /users returns exactly the current user list, which has no duplicates, and changes nothing. |
| `ChatServer.Store.PostMessage` | server/server.js:22-27 | POST /messages appends exactly one record `{username, text, time}` built from the request and the server's timestamp, and returns that record. The old history is a prefix of the new one. There is no check against the user list, and the user list is unchanged. |
| `ChatServer.Store.ListMessages` | server/server.js:29-31 | GET /messages returns exactly the current history and changes nothing. |
| `ChatServer.JoinAndPostScenario` | server/server.js:12-31 | On a fresh store, joining "alice" lists `["alice"]`. Posting "hi" as alice returns the stamped message, and listing then gives exactly that one message. |
| `ChatServer.JoinTwiceScenario` | server/server.js:12-20 | On a fresh store, joining "bob" twice lists `["bob"]`. |
| `ChatServer.ArrivalOrderScenario` | server/server.js:22-31 | Three messages posted in turn, by anyone, are listed after the earlier history in arrival order, and the user list is unchanged. |
| `JsText.CharUnits` | client/pages/index.js:51 | The UTF-16 code units of one character. A character in the Basic Multilingual Plane gives itself. Any other character gives a high and a low surrogate that decode back to it. |
| `JsText.Utf16` | client/pages/index.js:50-51 | The code-unit sequence that `length` and `charCodeAt` see is at least as long as the string and at most twice as long. For a string with only Basic Multilingual Plane characters it is the characters' values, one to one. |
| `JsText.TrimStart` | client/pages/index.js:79 | It drops a blank prefix and keeps the rest as a suffix of the input. A non-empty result starts with a non-white-space character. |
| `JsText.TrimEnd` | client/pages/index.js:79 | It drops a blank suffix and keeps the rest as a prefix of the input. A non-empty result ends with a non-white-space character. |
| `JsText.Trim` | client/pages/index.js:79 | `trim()` returns the slice of its input that starts right after the leading white space. Everything before the slice and everything after it is white space, and a non-empty result starts and ends with a non-white-space character. So the result is fully determined: the input with its leading and trailing white space cut off. |
| `JsText.TrimIsEmptyIffBlank` | client/pages/index.js:86 | `s.trim()` is the falsy `""` if and only if every character of `s` is white space. |
| `UsernameColor.ToInt32` | client/pages/index.js:51 | ToInt32 yields a signed 32-bit value congruent to its input modulo 2^32. It is the identity on values already in that range. |
| `UsernameColor.ShiftLeft5` | client/pages/index.js:51 | `h << 5` is a signed 32-bit value congruent to 32·h modulo 2^32. |
| `UsernameColor.Step` | client/pages/index.js:51 | One loop step, `c + ((h << 5) - h)`, is congruent to 31·h + c modulo 2^32. It moves the hash at most 2^31 + 65535 further from zero. |
| `UsernameColor.HashIsLeftFold` | client/pages/index.js:49-52 | The loop's hash is the left fold of the step over the code units in order, starting from 0. |
| `UsernameColor.HashMatchesPolynomial` | client/pages/index.js:49-52 | The hash agrees modulo 2^32 with the polynomial hash Σ c_k·31^(n-1-k). |
| `UsernameColor.HashBound` | client/pages/index.js:49-52 | After n code units the hash is at most n·(2^31 + 65535) in magnitude. |
| `UsernameColor.ShiftedDifferenceIsSafe` | client/pages/index.js:51 | While fewer than 2^21 code units have been hashed, the intermediate `(hash << 5) - hash` of the next step is a safe integer too, so that subtraction is exact. |
| `UsernameColor.HashIsSafe` | client/pages/index.js:49-52 | For names of at most 2^21 code units the hash is a safe integer (at most 2^53 − 1 in magnitude), so the source's double arithmetic computes it exactly. |
| `UsernameColor.ColorIndex` | client/pages/index.js:53 | `Math.abs(hash) % 20` is always a valid palette index, for hashes near −2^31 too, and it is 0 for the empty name. |
| `UsernameColor.GetUsernameColor` | client/pages/index.js:24-55 | The name is taken as the UTF-16 code units a JavaScript string consists of. The loop leaves in `hash` the specification hash of those units, and every intermediate hash is a safe integer. The result is always one of the 20 palette colours, namely the one at `ColorIndex`. The empty name gets `"#FFB6C1"`. |
| `UsernameColor.SameNameSameColor` | client/pages/index.js:48-55 | Colouring the same name twice gives the same colour. |
| `UsernameColor.ColorOfName` | client/pages/index.js:48-55 | A name held as a Dafny string gets one of the palette colours, the one that `getUsernameColor` picks for its UTF-16 code units. |
| `ChatClient.Client.constructor` | client/pages/index.js:58-62 | The page starts with an empty username and message, not joined, and with empty user and message lists. |
| `ChatClient.Client.TypeUsername` | client/pages/index.js:219-224 | The username field's change handler stores the typed text. The field is rendered only while not yet joined. |
| `ChatClient.Client.TypeMessage` | client/pages/index.js:313 | The message field's change handler stores the typed text. The field is rendered only after joining. |
| `ChatClient.Client.HandleJoin` | client/pages/index.js:78-82 | For a name that trims to `""`, or a failed post, nothing changes: no join reaches the store and `entered` keeps its value. Otherwise the store's users become `Joined(old users, username)`, so the name is listed, the messages are unchanged and `entered` becomes true. It can be called only before joining, since the Join button is rendered only then. |
| `ChatClient.Client.HandleSend` | client/pages/index.js:85-90 | For a message that trims to `""`, or a failed post, the input is not cleared and the store is untouched. Otherwise exactly `{username, text: message, time: now}` is appended to the store's history, its users are unchanged and the input becomes `""`. It can be called only after joining, since the Send button and the Enter handler are rendered only then. |
| `ChatClient.Client.Refresh` | client/pages/index.js:65-75 | One polling tick, which runs only after joining, replaces each successfully fetched local list wholesale with the store's current snapshot, with no merge. A failed fetch leaves its list as it was. |

## Left out

- Rendering (JSX, Material UI layout, styling, icons and the theme in `client/pages/_app.js`): cosmetic, with no behaviour to state.
- The HTTP transport (axios, Express routing, CORS, JSON body parsing, `app.listen`, the fixed port and server URL, the 200 status codes): foreign-library I/O. Each request is one atomic call on the store.
- A request that reaches the store but whose response is lost: a failed post is modelled as never reaching the store.
- Concurrent interleaving of requests: handlers are sequential atomic operations.
- The 2-second `setInterval` schedule and its `clearInterval` cleanup: timers and React effect lifecycle. Only the effect of one tick is modelled (`Refresh`), and only while joined, which is when the interval exists.
- The two fetches of one tick resolving in either order or on different ticks: they touch disjoint lists, so each is modelled as an independent success flag.
- `new Date().toISOString()` and `toLocaleTimeString`: clock and locale formatting. The timestamp is an opaque string argument.
- Missing JSON fields becoming `undefined`: `username` and `text` are typed as strings.
- The Enter key handler: it calls `handleSend` and is that same method.
- Unpaired surrogates in `username` and `message`: a JavaScript string can hold them, but the client's fields are Dafny strings, which cannot. The colour function itself takes any code-unit sequence, lone surrogates included.
- UsernameColor.GetUsernameColor: names longer than 2^21 code units are excluded by the precondition. Past that bound the source's doubles could start rounding, which the integer model does not capture.
- UsernameColor.ColorOfName: names longer than 2^20 characters are excluded, because each character can take two code units and the encoding must stay within the 2^21 bound of `GetUsernameColor`.
- Which user and message lists appear on screen and in what colour: this is rendering. Only the colour function itself is modelled.
