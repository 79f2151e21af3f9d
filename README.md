# 7TV emotes for Rocket.Chat — a Dafny model

This project models the core of a userscript that shows 7TV emotes in Rocket.Chat.
A chat message whose text contains a shortcode such as `:PepeLaugh:` gets that token
replaced by the emote's image. The composer offers an autocomplete popup while someone types
`:pep`. The model covers:

- **Shortcodes** (`shortcode.dfy`): `EMOTE_REGEX` and the match step of
  `getEmoteFromContent`. A token qualifies only when it is, as a whole, a colon, one or more
  characters from `[A-Za-z0-9_:]`, and a colon.
- **The resolver** (`resolver.dfy`): `searchEmote` with its cache, which is keyed by the
  lower-cased name. The cache is a `map` field of the class `EmoteResolver`, updated in place.
  The directory (the 7TV GraphQL endpoint) is a function parameter. A cache miss becomes a
  request, and only a usable answer is stored.
- **The rewrite of a text node** (`rebuild.dfy`): the `reduce` that folds the per-token
  pieces. A text piece that follows a text piece is appended to it after one space.
- **The scan of a message** (`scanner.dfy`): `replaceWithEmotes`, `_replaceWithEmotes` and
  `hasTagInParents`, modelled as a traversal of a tree of elements and text nodes.
  - Nothing at or below a `CODE` element is touched.
  - An element with `role="img"` is replaced whole, by the emote of its trimmed text.
  - A text node is split on single spaces and rebuilt only when some token resolves.
  - Any other node is visited child by child.
  - The scan returns a replacement plan and the names it requested.
  - Every lookup in one scan reads the cache as it stood when the scan began. The
    traversal and every token's lookup run synchronously up to their first `await`, so all
    cache reads happen before the first answer arrives.
  - The answers are then written in request order (`Settle`).
- **Autocomplete** (`autocomplete.dfy`):
  - the query the input listener takes (the text after the last colon, two characters or
    more);
  - the rewrite a click on a suggestion performs;
  - the length guard of `searchEmotes`;
  - `filterUniqueEmotes`, as an imperative loop over a `seen` set, proved equal to a
    reference definition.
- **The debounce** (`debounce.dfy`): `updateEmotePopup`'s single timer slot and
  `lastSearchQuery`. These are a pure state machine (`Step`, `Run`) and a class
  `SearchDebouncer` whose methods are proved to follow it.

Strings are `seq<char>`. `toLowerCase` is modelled on ASCII letters only.

### Behaviour of the code worth knowing

- The merge in the text-node rewrite puts back only the spaces between two neighbouring text
  pieces. The space on either side of an emote is dropped: `"hello :pepe: world"` becomes
  `"hello"`, the image, `"world"` (`Rebuild.Push`, `script.user.js:112-116`).
- Choosing a suggestion keeps the last colon and appends the name, a colon and a space:
  `"hi :pep"` becomes `"hi :Pepega: "` (`Autocomplete.Select`, `script.user.js:211`).
- `lastSearchQuery` is set before the popup is looked up. A query whose popup was missing is
  therefore recorded and will be skipped if it comes again (`Debounce.FireNewQuery`,
  `script.user.js:237-251`).
- One timer slot and one `lastSearchQuery` are shared by the main composer and the thread
  composer. Input in either one replaces the search pending for the other
  (`Debounce.InputReplacesPending`).
- `searchTimeout` is never reset after its callback runs. The model keeps the pending
  callback rather than the numeric handle, which is observably the same, since clearing a
  fired timer does nothing.

## Model

| member | source | states |
|---|---|---|
| Strings.Split | script.user.js:107 | `split(' ')` always yields at least one piece; `""` yields `[""]` |
| Strings.JoinSplit | script.user.js:107 | joining the pieces of `split(' ')` with single spaces gives back the text exactly, empty pieces included |
| Strings.SplitNoSpace | script.user.js:107 | no piece of a split contains a space |
| Strings.SplitJoin | script.user.js:107 | splitting a space-joined list of space-free pieces gives back that list |
| Strings.TrimStart | script.user.js:104 | the result is a suffix; everything cut is whitespace; a non-empty result starts with non-whitespace |
| Strings.TrimEnd | script.user.js:104 | the result is a prefix; everything cut is whitespace; a non-empty result ends with non-whitespace |
| Strings.TrimSlice | script.user.js:104 | `trim()` keeps one contiguous slice of the text |
| Strings.TrimCutsWhitespace | script.user.js:104 | every character `trim()` removes, at either end, is ECMAScript whitespace or a line terminator |
| Strings.TrimEnds | script.user.js:104 | a non-empty trimmed text neither starts nor ends with whitespace |
| Strings.LastIndexOf | script.user.js:209 | the result is -1 exactly when the character is absent; otherwise that position holds it and no later one does |
| Shortcode.EmoteName | script.user.js:16 | a name is returned exactly when the whole token is `:`, a name in `[A-Za-z0-9_:]+`, `:`; the token is then the name wrapped in colons |
| Shortcode.ShortcodeRoundTrip | script.user.js:16 | wrapping any valid name in colons matches and captures that name |
| Shortcode.ShortcodeInjective | script.user.js:16 | two matching tokens with the same captured name are the same token |
| Shortcode.ShortcodeExamples | script.user.js:16 | `:a:b:` names `a:b` and `:::` names `:` (inner colons are name characters); `::`, `:pepe`, `x:pepe:` and `:pe pe:` do not match |
| Resolver.FindFile | script.user.js:82 | `files.find` by name: found exactly when some file has the name, and then it is the first such file |
| Resolver.ChooseFile | script.user.js:82 | the file name is `2x.webp` when the host lists that file, otherwise the first file's name |
| Resolver.LookupHit | script.user.js:64-68 | a name whose lower-cased key is cached resolves to the stored entry, whatever the directory says |
| Resolver.MissStores | script.user.js:70-95 | on a miss, a result exists exactly when the answer has an item and that item lists a file; it carries the item's name and `host.url + "/" +` the chosen file; exactly that is stored under the lower-cased key; every other miss stores nothing |
| Resolver.SettleExtends | script.user.js:88 | writing answers for requested (missed) names never removes or changes an existing entry, and it adds only the keys of the names asked for |
| Resolver.ResolveStable | script.user.js:63-88 | once a name has resolved, asking again in any letter case gives the same entry, even if the directory's answers change |
| Resolver.EmoteResolver.constructor | script.user.js:26 | the resolver starts with the cache loaded from storage and no requests |
| Resolver.EmoteResolver.Complete | script.user.js:70-95 | one request: the result is the directory's answer turned into an emote, the cache gains it on success only, and the request is logged |
| Resolver.EmoteResolver.SearchEmote | script.user.js:63-96 | `searchEmote`: the result is the cache-first lookup; a hit changes nothing and sends nothing; a miss sends one request and stores only a success; no entry is ever removed |
| Resolver.EmoteResolver.GetEmoteFromContent | script.user.js:123-129 | a token that is not a shortcode consults neither the cache nor the directory; a shortcode is looked up by its inner name: a cached one changes nothing and sends nothing, a missed one sends one request and stores only a success |
| Resolver.EmoteResolver.CompleteAll | script.user.js:107-110 | the answers to a batch of requests, written one after another, leave the cache equal to `Settle` over that batch |
| Rebuild.Reduce | script.user.js:112-116 | the in-place accumulator loop computes the left fold `Coalesce` |
| Rebuild.CoalesceNoAdjacentLiterals | script.user.js:113 | after the fold, no two neighbouring pieces are both text |
| Rebuild.CoalesceImages | script.user.js:112-116 | the fold keeps every emote piece, in order, and adds none |
| Rebuild.CoalesceSpelling | script.user.js:112-116 | writing each piece as the text it stands for and joining with spaces gives the same text as before the fold |
| Rebuild.CoalesceLiteralsOnly | script.user.js:112-116 | a run of text pieces alone folds into one text piece, their space-joined text |
| Scanner.AncestorHasTagIsMembership | script.user.js:99 | the recursion over `parentNode` finds a tag exactly when some ancestor has it |
| Scanner.ScanUnderCode | script.user.js:99-102 | a `CODE` element, or any node inside one, gives no change and no request |
| Scanner.ScanIgnoresCode | script.user.js:102 | emptying the content of `CODE` elements does not change the plan or the requests |
| Scanner.ScanChildrenIgnoresCode | script.user.js:119 | the same for a list of children |
| Scanner.ScanRequestsValid | script.user.js:101-129 | every name a scan requests is a valid shortcode name that the cache did not hold |
| Scanner.ScanChildrenRequestsValid | script.user.js:119 | the same for a list of children |
| Scanner.ScanTextNoOp | script.user.js:111 | a text node none of whose tokens resolves is left untouched |
| Scanner.ScanTextRebuild | script.user.js:106-117 | a text node is replaced exactly when some token resolves; no two replacement pieces are both text, the emotes are those of the resolved tokens in order, and their spelling, space-joined, is the node's text |
| Scanner.ScanImageElement | script.user.js:103-105 | an element with `role="img"` is replaced by the emote of its trimmed text when that resolves, and kept otherwise |
| Scanner.ScanKeepsCache | script.user.js:98-121 | a scan and all its answers never remove or change an existing cache entry |
| Scanner.ReplaceWithEmotes | script.user.js:98-121 | `replaceWithEmotes` run to completion: the plan from the starting cache, the requests logged in order, and the final cache equal to `Settle`, which extends the old one |
| Autocomplete.QueryOfNoColon | script.user.js:315-317 | a value without a colon gives no query |
| Autocomplete.QueryOfComposed | script.user.js:313-322 | for a colon-free tail after the last colon, the query is that tail when it has at least two characters, and none otherwise |
| Autocomplete.QueryOfSound | script.user.js:313-322 | every query has at least two characters and no colon, and is exactly the text after the value's last colon |
| Autocomplete.SelectComposed | script.user.js:207-215 | a click replaces only the text after the last colon, giving `prefix + ":" + name + ": "` |
| Autocomplete.SelectNoColon | script.user.js:210 | with no colon in the value, a click changes nothing |
| Autocomplete.SelectEndsQuery | script.user.js:211-212 | the input event dispatched after a selection yields no query, so it starts no search |
| Autocomplete.AutocompleteExample | script.user.js:207-215 | `hi :pep` asks for `pep`, and choosing `Pepega` leaves `hi :Pepega: ` |
| Autocomplete.SearchGuard | script.user.js:156-172 | a request is sent exactly when the query has at least two characters; a refused or failed search finds nothing |
| Autocomplete.FilterUniqueEmotes | script.user.js:221-229 | the loop over a seen-names set computes the reference deduplication `UniqueByName` |
| Autocomplete.UniqueIsSubsequence | script.user.js:223 | the deduplicated list is the input with some entries deleted, in input order |
| Autocomplete.UniqueKeepsFirsts | script.user.js:224-227 | every kept emote is the first of its name in the input, ignoring case |
| Autocomplete.UniqueNoDuplicates | script.user.js:225 | no two kept emotes share a name, ignoring case |
| Autocomplete.UniqueCoversNames | script.user.js:226-227 | every name of the input, ignoring case, is the name of some kept emote |
| Debounce.InputReplacesPending | script.user.js:231-236 | an input that yields a query replaces the pending search, from either composer, and leaves `lastSearchQuery` alone; any other input changes nothing |
| Debounce.FireRepeatedQuery | script.user.js:237 | firing the query executed last does nothing but consume the timer |
| Debounce.FireNewQuery | script.user.js:238-256 | firing another query records it as the last query first; a missing popup then stops with no search; with the popup, exactly one request is sent, an empty result leaves the list, and otherwise the list shows the results deduplicated |
| Debounce.BurstSendsNothing | script.user.js:231-236 | a burst of input events sends no request and leaves `lastSearchQuery` alone |
| Debounce.BurstWithoutQuery | script.user.js:315-321 | a burst in which no input yields a query changes nothing |
| Debounce.BurstLeavesLastQuery | script.user.js:232-236 | after a burst, the search pending is that of the last input that yielded a query |
| Debounce.BurstThenFire | script.user.js:231-266 | a burst followed by one timer expiry searches at most once, only for the last query, and only if it differs from the one executed last |
| Debounce.SearchDebouncer.constructor | script.user.js:23-24 | nothing pending and an empty last query at start-up |
| Debounce.SearchDebouncer.UpdateEmotePopup | script.user.js:231-236 | the new state is the pure `Schedule` of the old one; nothing is sent |
| Debounce.SearchDebouncer.HandleInput | script.user.js:313-322 | the input listener updates the state as `OnInput` does |
| Debounce.SearchDebouncer.TimerFires | script.user.js:236-266 | the timer callback updates the state, reports the effect and logs the request exactly as `Fire` does |

## Left out

- The network: `fetch`, `buildRequestBody` and the JSON decoding are replaced by an `Api`
  function parameter. It returns the answer's `data.emotes.items`, or None when the request
  fails, the body is not JSON, or that path is missing. The request limits (1 and 10) and the
  `exact_match` flag are sent to the server, so they are part of what that function stands
  for.
- A host with no `url`, or no `host` at all: the record types always have one. Only an empty
  file list (in the code, `files[0].name` throws and returns `undefined`) is modelled.
- `localStorage` persistence: the cache is loaded in the constructor and the write-back after
  each store is not modelled. When `setItem` throws (a full quota, say; `script.user.js:89`),
  the code has already written the entry at line 88 but returns `undefined`. The model returns
  the entry in that case.
- `MutationObserver` wiring, `setupChatObserver`, `setupMessagesObserver`,
  `setupThreadObserver`, `setupEmoteSearch` and `runScript`: these are page plumbing. In
  particular, `setupChatObserver` assigns the new observer to its parameter, so the module
  variables stay `null` and old observers are never disconnected. The model does not cover
  this.
- DOM element construction (`createEmoteElement`, `createEmoteImage`, `createEmoteSpan`,
  `createEmoteWrapper`, `createEmoteListItem`): an emote piece stands for its `<img>` with
  `src = imageUrl` and `title = name`. A new popup list stands for its emotes, in order.
- Concurrency and completion order:
  - Answers to a scan's requests are written in request order (`Settle`). In the page they
    land in whatever order the network completes them. For requests whose keys differ the
    final cache is the same; for two spellings of one key, the last write wins.
  - Two scans that overlap in time are not modelled.
  - A popup search whose answer arrives after a newer query fired is not modelled: the code
    has no staleness guard.
- Real time: timers are the `TimerFires` event, and the 300 ms delay is not represented.
- The popup lookup (`contextualBar`, `emotePopup`, `oldEmoteList`) is one boolean,
  `popupReady`. All three missing cases return early in the same way.
- Node types other than elements and text nodes (comments, for instance) are not modelled.
  The code sends them to the child loop, where they have no children.
- Plain-object cache keys such as `constructor` or `__proto__`, which an object lookup would
  find on the prototype: these are not modelled, and the cache is an honest map.
- Strings.Lower: only ASCII letters are lower-cased. `toLowerCase` also maps non-ASCII
  letters, which can change which keys collide.
- String lengths and positions count Unicode code points, whereas JavaScript counts
  UTF-16 code units. This matters only for `query.length >= 2` on astral characters.
