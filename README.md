# AAWC chat server core, modelled in Dafny

This project models three pieces of the AAWC chat server (a small Node
server for ephemeral, room-scoped group chat):

- **The message store** (`_chat.js`). `escapeHtml` is a nine-step
  replacement table applied to the trimmed input. `Chat` maps each room id
  to its list of `[ts, nick, text]` entries. It has `exist`, `get`, `send`,
  the per-room `cleanup` with its five-hour retention rule, and
  `save`/`load` as whole-map snapshots.
- **The request-side helpers and the live-subscriber registry**
  (`app.js`). These are `sanitizeString`, `sanitizeId` and the `roomId`
  parameter check that redirects to the sanitised id. The `roomSubs`
  registry maps a room to its set of open chat responses and supports
  subscribe, `cleanupSub` and the publish fan-out. The backlog is the
  `slice(-maxLastMessages)` tail written to a new viewer.
- **Template substitution** (`pages.js`). `renderTemplate` replaces
  `{word}` placeholders recursively. Pages are rendered twice: once at
  load time with the package constants under `skipUndefined`, then once
  per request.

Files:

- `Js.dfy` holds the JavaScript built-ins the code relies on: `trim`
  with the full ECMAScript whitespace table, `slice`, and an Option type.
- `Escape.dfy` models `escapeHtml`.
- `ChatStore.dfy` models the `Chat` object.
- `Sanitize.dfy` models the string helpers and the parameter check.
- `Subscribers.dfy` models the registry and the backlog.
- `Templates.dfy` models `renderTemplate`.

`escapeHtml` is modelled twice. One form is the loop over the table, a
method proved equal to the fold of the nine replacements. The other is an
independent one-pass reference, `OnePass`. It writes one `<br/>` per
maximal newline run and the entity of every other character. The lemma
`PipelineIsOnePass` proves the two equal for every string. The properties
of the output are proved about the reference.

`Chat` and the registry change state in place, so they are classes with
`modifies` clauses. Their methods state the whole new state in terms of
the old one. They also state the invariants they keep: no room is empty in
the store, and no set is empty in the registry.

The clock (`Date.now()`) is a parameter `now`. Open responses are opaque
sink ids. A write to a response is returned as a value.

The model follows the code where it departs from the obvious reading of
the operations:

- `send` rejects a message when the RAW nick or text is empty, not when it
  escapes to empty. So `"   "` is accepted and stored as an empty field.
- `cleanup` drops a room when its newest entry's age is AT LEAST 1.8e7 ms.
  It keeps entries whose age is strictly below that.
- `exist` tests whether the key is present. That equals "has stored
  messages" only while no room is empty.

## Model

| member | source | states |
|---|---|---|
| `Js.TrimStart` | _chat.js:16 | the result is the suffix of the input after its leading ECMAScript whitespace, and it does not start with whitespace |
| `Js.TrimEnd` | _chat.js:16 | the result is the prefix of the input before its trailing whitespace, and it does not end with whitespace |
| `Js.Trim` | _chat.js:16 | `trim()` returns a contiguous infix of the input; everything cut on either side is whitespace, and the result neither starts nor ends with whitespace |
| `Js.TrimOfTrimmed` | _chat.js:16 | a string with no whitespace at either end trims to itself |
| `Js.TrimOfWhitespace` | _chat.js:16 | a string made only of whitespace trims to the empty string |
| `Js.TrimEmptyOnlyForWhitespace` | _chat.js:16 | only whitespace-only strings trim to the empty string |
| `Js.Take` | app.js:18 | `slice(0, n)` is the prefix of length exactly `min(n, |s|)`: the first `n` characters of a longer string, the whole of a shorter one |
| `Js.SliceFrom` | app.js:74 | `slice(start)` with a negative start keeps the last `min(n, -start)` elements; a non-negative start drops `min(n, start)` elements |
| `Escape.ReplaceEach` | _chat.js:4-9 | replacing a character that does not occur leaves the string unchanged, and a replacement that does not contain the character removes every occurrence of it |
| `Escape.ReplaceRuns` | _chat.js:10-12 | replacing runs of a character with text that does not contain it leaves no occurrence of that character |
| `Escape.Test` | _chat.js:18 | `regex.test(str)` holds iff some position of the string holds the rule's character |
| `Escape.ReplaceAll` | _chat.js:19 | `str.replaceAll(regex, replace)` leaves no occurrence of the rule's character when the replacement does not contain it |
| `Escape.DropRun` | _chat.js:10-12 | a leading run of a character is removed exactly: what is dropped is all that character, and what remains does not start with it |
| `Escape.Escaped` | _chat.js:15-22 | what `escapeHtml(str)` returns: the table's replacements in order on `str.trim()`; `EscapedIsOnePass` and `EscapedCharacterClasses` state what that is |
| `Escape.EscapeMap` | _chat.js:3-13 | the replacement table: six single-character entity rules, then the newline, CR and tab run rules, in iteration order |
| `Escape.EscapeHtml` | _chat.js:15-22 | the loop over the table, skipping failed tests, returns the nine replacements composed in table order on the trimmed input |
| `Escape.FailedTestIsIdentity` | _chat.js:17-19 | skipping a rule whose `test` fails is the same as applying it, because the replacement would change nothing |
| `Escape.PipelineIsOnePass` | _chat.js:3-13 | the nine replacements in table order equal the one-pass reference on every string |
| `Escape.EscapedIsOnePass` | _chat.js:15-22 | `escapeHtml(str)` is the one-pass reference applied to `str.trim()`, so each `&` becomes `&amp`, `<` becomes `&lt`, and so on, with no `;` and no double escape |
| `Escape.EscapedCharacterClasses` | _chat.js:4-12 | the output holds no `"`, `'`, newline, CR or tab; every `<`, `/` or `>` in it is part of an inserted `<br/>` |
| `Escape.EscapedWhitespaceOnly` | _chat.js:16 | whitespace-only input escapes to the empty string |
| `Escape.EscapedCrBetweenNewlines` | _chat.js:10-12 | `"a\n\r\nb"` escapes to `a<br/><br/>b`: newline runs are collapsed before CRs are stripped |
| `Escape.EscapedNoDoubleEscape` | _chat.js:4-5 | `"&<"` escapes to `&amp&lt`: the ampersand rule runs first |
| `Escape.ReorderedTableDoubleEscapes` | _chat.js:3-5 | with the `<` rule moved before the `&` rule, `<` would become `&amplt`, so the table order matters |
| `ChatStore.IsFresh` | _chat.js:44 | the filter arrow: an entry is kept iff `now - ts < 1.8e7` |
| `ChatStore.KeepFresh` | _chat.js:44-48 | the filter keeps an order-preserving subsequence whose members are exactly the entries younger than 1.8e7 ms; when the newest entry is fresh it survives as the last element |
| `ChatStore.KeepFreshCounts` | _chat.js:48 | the filter keeps each fresh entry as many times as it is stored, and no stale one, so equal entries are not merged |
| `ChatStore.KeepFreshIdempotent` | _chat.js:48 | filtering twice with the same clock gives the same list as filtering once |
| `ChatStore.Chat.constructor` | _chat.js:25 | a new store holds no room |
| `ChatStore.Chat.Exist` | _chat.js:28-30 | while no room is empty, `exist(id)` holds iff `get(id)` is non-empty |
| `ChatStore.Chat.Get` | _chat.js:31-33 | `get(id)` is the stored list of a known room and `[]` for an unknown one |
| `ChatStore.Chat.Send` | _chat.js:34-40 | an empty raw nick or text leaves the store unchanged and returns nothing; otherwise exactly one entry `[now, escapeHtml(nick), escapeHtml(msg)]` is appended to the room, which is created if absent; other rooms are unchanged, `exist(id)` holds afterwards, and no room becomes empty |
| `ChatStore.Chat.Cleanup` | _chat.js:41-50 | on a non-empty id naming a non-empty room, the room key is deleted if its newest entry is at least 1.8e7 ms old, and otherwise the room becomes the fresh filter of its list; other rooms are unchanged, a kept room stays non-empty with the same newest entry, and no room becomes empty |
| `ChatStore.Chat.Save` | _chat.js:51-53 | the snapshot written is the whole room map |
| `ChatStore.Chat.Load` | _chat.js:54-59 | without a snapshot the current map is kept and saved; with one, the map becomes the snapshot |
| `ChatStore.SaveLoadRoundTrip` | _chat.js:51-59 | saving a store and loading the snapshot into a new store restores every room and entry |
| `Sanitize.FieldText` | app.js:16-21 | `String(str)`: a present field is its own text and a missing one is `"undefined"` |
| `Sanitize.KeepIf` | app.js:19 | removing the characters that fail a test keeps, in order, exactly the characters that pass it, each as many times as it occurs |
| `Sanitize.SanitizeString` | app.js:16-19 | the output is the allowed characters of the first 256 trimmed characters: an ordered subsequence of that cut holding each allowed character as many times as the cut does and nothing else, so at most 256 characters, all passing the allowed-category test |
| `Sanitize.PostedName` | app.js:52 | the posted name is the sanitised field when that is non-empty and the default otherwise, so it is never empty for a non-empty default |
| `Sanitize.LowerAll` | app.js:24 | lower-casing maps each character in place and keeps the length |
| `Sanitize.SanitizeId` | app.js:21-25 | the output is the `[a-z0-9-]` characters of the lower-cased first 128 trimmed characters: an ordered subsequence of that cut holding each such character as many times as the cut does and nothing else, so at most 128 characters of `[a-z0-9-]` |
| `Sanitize.SanitizeIdOfSanitized` | app.js:21-25 | an id that is already at most 128 characters of `[a-z0-9-]` is returned unchanged |
| `Sanitize.SanitizeIdIdempotent` | app.js:21-25 | `sanitizeId(sanitizeId(x)) == sanitizeId(x)` |
| `Sanitize.SanitizeIdUnchangedIff` | app.js:21-25 | `sanitizeId(x) == x` iff `x` is at most 128 characters of `[a-z0-9-]` |
| `Sanitize.RoomParam` | app.js:27-34 | the route proceeds iff the raw id is in sanitised form; otherwise it answers 307 with `Location` set to `/<sanitised id>/`, or to the default room when the sanitised id is empty |
| `Sanitize.RedirectIsAccepted` | app.js:27-34 | when the default room id is in sanitised form, the room a redirect points to is accepted on the next request |
| `Subscribers.Hub.constructor` | app.js:9 | the registry starts empty |
| `Subscribers.Hub.SubsOf` | app.js:81 | `roomSubs.get(roomId)`: the set of a registered room, and the empty set for any other |
| `Subscribers.Hub.Subscribe` | app.js:78-82 | afterwards the sink is in the room's set, which is created if needed; no other room's set changes; the registry still holds no empty set |
| `Subscribers.Hub.CleanupSub` | app.js:112-118 | it does nothing for an unknown room; otherwise it removes the sink and deletes the room key when the set becomes empty; other rooms are unchanged and the registry still holds no empty set |
| `Subscribers.Hub.Publish` | app.js:55-59 | the message is written to exactly the sinks registered under the room at that moment, each once, and to no other sink; with no subscribers nothing is written |
| `Subscribers.Backlog` | app.js:74 | for a positive limit the backlog is the last `min(n, limit)` stored messages in stored order; a zero limit (`slice(-0)`) gives all of them |
| `Subscribers.SendBacklog` | app.js:73-76 | the loop writes exactly the backlog messages, in order |
| `Templates.WordPrefixLen` | pages.js:42 | the count of leading `\w` characters: all counted characters are word characters and the next one is not |
| `Templates.PlaceholderAt` | pages.js:42 | a recognised match is `{`, a non-empty word key, `}`, then the rest of the string |
| `Templates.PlaceholderAtKey` | pages.js:42 | every `{key}` with a non-empty word key is recognised as a placeholder |
| `Templates.Render` | pages.js:41-51 | `renderTemplate`: the scan left to right, each match replaced by its callback's value; its properties are the lemmas below |
| `Templates.Substitute` | pages.js:42-50 | the callback: a string value rendered one level deeper, a number as its text, an absent key as `undefined` or as the match itself under `skipUndefined` |
| `Templates.PlaceholderAtPrefix` | pages.js:42 | a match at the start of a string is unaffected by what follows it |
| `Templates.PlaceholderAtNoStraddle` | pages.js:42 | no match straddles a `{`: text that does not start with a placeholder cannot begin one that runs into a following `{` |
| `Templates.RenderConcat` | pages.js:41-51 | a template splits at any `{`: `a + t` renders as `a`'s rendering followed by `t`'s, and finishes iff both do |
| `Templates.RenderAround` | pages.js:41-51 | a placeholder between two texts renders as the left text, the placeholder's replacement and the right text, each rendered on its own |
| `Templates.RenderLonePlaceholder` | pages.js:42-50 | a template made of one placeholder renders as that placeholder's replacement |
| `Templates.NoPlaceholderUnchanged` | pages.js:41-42 | a template with no `{word}` placeholder is returned unchanged |
| `Templates.TextBeforeBraceKept` | pages.js:42 | text before the first `{` is copied through unchanged, in order, ahead of the rendered rest |
| `Templates.UnknownKey` | pages.js:47-49 | an absent key renders as `undefined`, or stays verbatim as `{key}` under `skipUndefined` |
| `Templates.StringValueRendered` | pages.js:43-45 | a string value is itself rendered, with the same map and flag, before insertion |
| `Templates.NumberValueInserted` | pages.js:47-49 | a number value is inserted as its decimal text |
| `Templates.SelfReferenceDiverges` | pages.js:44-45 | a key whose value is `{key}` never finishes rendering, at any depth |
| `Templates.RenderFinishes` | pages.js:41-51 | when a ranking shows that string values never refer to each other in a cycle, rendering finishes once the depth exceeds the ranks |
| `Templates.SkipPassKeepsUnknown` | pages.js:47-49 | under `skipUndefined`, a template whose keys are all absent from the map comes out unchanged |
| `Templates.TwoPassRequestKeys` | pages.js:55-72 | the load-time pass leaves a template that names only per-request keys intact, so the per-request pass sees the original template |
| `Templates.TwoPassMixed` | pages.js:55-72 | for a template mixing constants and a per-request key `k`, the load-time pass renders the text on both sides of `{k}` and keeps `{k}` verbatim between them; the request pass then renders both rendered sides and fills `{k}` from the request's values |

## Left out

- File I/O, JSON and timers are not modelled: `fs`, `JSON.parse`/`stringify`, the autosave `setInterval` and the start-up `load()` call. `Chat.Save` returns the map and `Chat.Load` takes the file's parsed contents, or `None` when there is no file. A snapshot that does not parse is not modelled.
- `cleanup()` with no id, or with any falsy id such as `""`, is not modelled. It passes an unbound `cleanup` to `forEach`, which throws a ReferenceError, and nothing in the code calls it.
- `ChatStore.Chat.Cleanup`: the clock is read once per call. The source calls `Date.now()` once for the newest entry and once per entry during the filter. The precondition (a non-empty id naming a non-empty room) stands for the errors the source raises: the ReferenceError of the no-id branch, which the empty id `""` takes because it is falsy, and the TypeError on an empty or unknown room.
- `ChatStore.Chat.Send`: a missing form field is modelled as the empty string. Both are falsy, so both are rejected.
- Rooms are a plain map. JavaScript's `id in {}` is also true for inherited keys such as `constructor`. The template map has the same quirk.
- `messageToString` is not modelled because it depends on `Date.toISOString` and the locale. A write carries the entry itself.
- The publish crash path is not modelled. When `send` returns nothing while the room has subscribers, `messageToString(...undefined)` throws. Publishing is modelled only for a present entry.
- HTTP glue is not modelled: the router, `micro`'s `send`, the body parser, headers, chunked responses, the socket `close` event, `ErrorHandler`, and the archive and form routes.
- Page preparation is not modelled: `minify`, reading the template files, the `randomBytes` nonce and the CSP header. Only the two rendering passes are.
- `Sanitize.SanitizeString`: the Unicode classes `\p{Letter}`, `\p{Mark}`, `\p{Separator}` and `\p{Number}` are the parameter `allowed`, not a Unicode table.
- `Sanitize.SanitizeId`: `toLowerCase` is modelled for ASCII letters only. Unicode mappings into ASCII, such as KELVIN SIGN to `k` or `İ` to `i` plus a combining dot, are not modelled. Non-ASCII characters are removed by the final filter either way.
- Strings are sequences of Unicode scalar values. JavaScript's `slice(0, 256)` and `slice(0, 128)` count UTF-16 code units, so the bounds differ for characters outside the Basic Multilingual Plane.
- `Subscribers.Hub.Publish`: sinks are visited in an unspecified order. JavaScript's `Set` iterates in insertion order.
- The write-back of a sink is not modelled. A write is a returned value, and a response closing is a `CleanupSub` call.
- `Templates.Render`: recursion depth is bounded by `fuel`. A result of `None` stands for a rendering that does not finish within `fuel` nested renders; one that never finishes overflows the stack in JavaScript. Values are strings or integers. Other value types, and numbers that are not integers, are not modelled.
- `Templates.NumberValueInserted`: numbers are unbounded integers written in plain decimal. JavaScript's `String(n)` uses exponent form from `1e21` up, and a double cannot hold every integer beyond 2^53; neither is modelled.
- Logging is not modelled: the `console.log` in `cleanupSub` (app.js:113) and the start-up and error messages only write to the console.
- There is no concurrency to model. Node runs each handler to completion, so every operation is a sequential state change.
