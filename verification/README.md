# Routing, trees and caches: a verification project

This project models the request router of a programmable file server, and the parts around it that
decide what a path means, and proves properties of the model with Dafny 4.11. `dafny verify
dfyconfig.toml` checks everything.

## What is modelled

* **The radix router** (`Patterns`, `Tables`, `Searching`, `Radix`, `Routers`, `RegexpRetry`, `Captures`). The tree
  is a class `Node` whose methods split, relink and search nodes in place. Its specification is a flat
  table from token sequences and operations to endpoints, in which the last write wins (`Tokens`,
  `Pieces`, `Routers`). Each node carries the table of the routes below it as a ghost field, tied to its real
  fields by a representation invariant (`Tables.NodeOk`, `Radix.Node.Linked`) that every insertion keeps
  at every node. The listing methods walk the real tree and produce exactly that table.
* **Glob patterns** (`Globs`, `Segments`, `GlobMeaning`, `GlobLookups`, `Registries`, `GlobParams`): the two
  translations to regular expressions, the translation to router patterns, reading the result back, and the names
  under which scripts see the captures, read off pattern and path.
* **The component tree** (`Components`, `Trees`, `Navigation`, `Stepping`): the second index over the same
  routes, which the transports navigate, as a class `TreeNode` built in place; and `TwoIndexes`,
  `Shadowing` and `Transports`, which show exactly when the two indexes, and the steps of the transports, answer alike.
* **The FUSE content cache** (`FuseCache`) as a step system: any number of fetches and writes, a
  read-write mutex, and every interleaving. A run is a sequence of actions, and an action's time is its
  position in it. The directory listing cache is the same machine without invalidation.
* **Smaller state**: the SFTP write buffer and the paging of listings (`WriteBuffers`), the 9p file's
  windows and kept response (`NinepFiles`), and the conversion between Lua and Go values (`LuaConvert`).

## How to read it

A token is a literal byte, a `{name}` parameter with its delimiter, a `{name:regexp}` parameter, or the final
`*`. A pattern matches a path in at most one way. The regular expression engine is an uninterpreted
predicate; only expressions made of `.`, `.*`, escaped metacharacters and other bytes that are no metacharacters
are given a meaning, by `Globs.Faithful`, and only in ASCII: Go matches UTF-8 characters, so that `?` takes the two
bytes of `é`, and bytes are characters only there. Such an engine exists (`Globs.FaithfulExists`).

"Lax" matching lets a regexp parameter take nothing when its delimiter comes first, without asking the
regexp. It describes the attempt the router makes after the loop over the siblings of a parameter
(`internal/router/radix.go:529`). For `{name}` parameters this attempt is redundant, which is proved. For
regexps it is not: `/a{x:[0-9]+}b` is found for `/ab`, with an empty `x`. `RegexpRetry` states exactly when a
lax match is a strict one: when the pattern nowhere comes to one of its own regexps with that regexp's delimiter
in front of it. Where no two regexps compete, and the search order leaves no choice at the front, a lookup is right
if and only if the lax match that comes first does not (`RegexpRetry.RightExactlyWhen`); with competing regexps every
possible answer is right if and only if each registration that does is searched after one that matches
(`RegexpRetry.AnswersRightExactlyWhen`). Where all regexps are whole segments, a path is safe for every router
exactly when it has no empty segment (or does not begin with `/`).

Lookups are proved sound for lax matches and complete for strict ones; when no two regexps compete at one place
they are complete for lax ones too, so that a lookup then finds something exactly when a lax match exists.

`NoLater` is the search order at the first token where two patterns part: end of pattern and literal bytes,
regexps, parameters with a delimiter other than `/`, parameters delimited by `/`, the final `*`. Two regexps, and
two parameters with different delimiters other than `/`, are left in the order in which they were sorted.

Scripts see a first middle `*` and a final `*` under the one name `*`, and Go's map order decides which: this is so
exactly when the component at the one is not the text of the other (`GlobParams.DeterministicOnPath`), as for the
pattern `/*/x/*` and the path `/a/x/b` (`GlobParams.StarsCollide`).

Iteration over Go maps is nondeterministic choice from the set of keys, so results are proved for every
order. A handler is an identity; what a handler answers is a parameter. Text is a sequence of bytes, one
`char` for each.

## Preconditions

* A registered pattern begins with `/`, is accepted by the parser, has distinct parameter names, and has no
  parameter directly followed by another one or by `*` (`Patterns.Valid`). The router panics on the first three;
  the last is what `internal/router/radix.go:352-353` takes for granted. `PatNextSegment` and `PatParamKeys` are
  modelled on all texts, with `None` for a panic.
* Offsets of writes are not negative.
* In `GlobMeaning` the parts of a glob pattern are plain parameters, globs with balanced braces, or texts without an
  opening brace. A glob with other braces is not read back (`GlobMeaning.GlobReadsExactlyWhen`), and a text with an
  opening brace is a pattern of the router's own.

## Where code and comments differ

The comment on `splitPath` (`internal/router/tree.go:172`) says that empty components are ignored. The code
only drops the slashes at both ends; an empty component in the middle stays, as in `/a//b`
(`Components.EmptyComponentStays`). The model follows the code: `Components.SlashesDoNotCount` states what is
dropped, and `Components.EmptyComponentExactlyWhen` exactly when an empty component is left.

The converse of `TwoIndexes.IndexesAgree` does not hold, because the walk over the component tree does not
backtrack; `TwoIndexes.WalkMayMiss` gives a family of routes that shows it. The exact condition is that the route
found is not shadowed on the path (`Shadowing.FoundIsReachedExactlyWhen`).

## Model

| member | source | states |
|---|---|---|
| Patterns.PatNextSegment | internal/router/radix.go:635-701 | The parser of one segment reports exactly the segment that the first `{` or `*` of the text determines; its panics (a `*` that is not last, an unclosed brace) are exactly the texts that have no such segment. |
| Patterns.ScanBraces | internal/router/radix.go:654-670 | The scan for the closing brace ends where the number of opened and not yet closed braces first comes back to 0, or where it began when that never happens. |
| Patterns.CloseExactlyWhen | internal/router/radix.go:656-666 | So does the reading of patterns: a text's first brace closes at `e` if and only if the depth is 0 behind `e` and positive before, and nowhere if and only if it never comes back to 0. |
| Patterns.CutKey | internal/router/radix.go:672-691 | A parameter's inside is cut at its first `:` into name and regular expression, and the expression is anchored at the ends that are not anchored. |
| Patterns.AfterSegment | internal/router/radix.go:703-719 | Parsing segment by segment is sound and complete: what is left parses exactly when the whole does, and contributes the remaining names in order. |
| Patterns.PatParamKeys | internal/router/radix.go:703-719 | The names of all parameters in order, or a panic exactly when the text does not parse or a name occurs twice. |
| Patterns.KeyCount | internal/router/radix.go:703-719 | A pattern has one name for each token that captures, so keys and captured values always pair up. |
| Tokens.StrictIsLax | internal/router/radix.go:481-529 | Taking the empty-capture retry into account never loses a match and never changes its captures. |
| Pieces.SpanExactlyWhen | internal/router/radix.go:482-517 | A token takes `n` bytes if and only if they are a piece it may take before what follows. |
| Pieces.MatchExactlyWhen | internal/router/radix.go:448-568 | A pattern matches a path if and only if the path can be cut into one such piece for each token, and the captures are the pieces of the capturing tokens: in particular no `{name}` holds a `/` or its own delimiter, the byte behind a parameter is its delimiter, a parameter that ends the path is delimited by `/`, and a regexp accepts its non-empty piece. |
| Tokens.FirstIsUnique | internal/router/radix.go:448-568 | Among patterns that match the same path, strictly or laxly, the search order leaves open only two regexps, or two parameters with delimiters other than `/`, at the place where they part. |
| Tables.InsertBelow | internal/router/radix.go:243-261 | Passing an insertion on to the child whose edge the pattern begins with keeps the representation invariant, and the node's table changes in that one entry. |
| Tables.InsertNew | internal/router/radix.go:234-241 | A new edge for a pattern with a new first token keeps the representation invariant, and the table gains that one entry. |
| Tables.SplitPure | internal/router/radix.go:263-273 | Cutting a static edge in two keeps every route in place: the node in the middle has the old child's routes behind the rest of the edge, and the invariant holds on both sides. |
| Searching.NextSibling | internal/router/radix.go:481-527 | When a parameter edge does not apply, or nothing is found behind it, no live route that begins with it has been missed. |
| Searching.FoundVia | internal/router/radix.go:466-556 | A route found behind an edge is a live match here, and no live strict match comes earlier in the search order. |
| Searching.SkipGroup | internal/router/radix.go:452-456 | A group without an edge that applies holds no live match. |
| Searching.RetryRedundant | internal/router/radix.go:529-556 | For a `{name}` edge the retry after the loop repeats the step the loop has made: the empty capture in front of the delimiter. |
| Searching.RetryFound | internal/router/radix.go:529-556 | What the retry finds is a live lax match with an empty capture, and no strict match comes before it. |
| Searching.RetryNone | internal/router/radix.go:529-564 | When the retry finds nothing the group holds no live strict match, and no lax one either when the group has a single regexp. |
| Radix.SortNodes | internal/router/radix.go:737-741 | Sorting a group by label gives a permutation of it with ascending labels. |
| Radix.TailSort | internal/router/radix.go:743-752 | The last sibling whose tail is `/` changes places with the last of the group, and no other sibling moves; a group without such a sibling stays as it is. |
| Radix.LongestPrefix | internal/router/radix.go:721-733 | The result is the length of the longest common prefix of the two strings. |
| Radix.FindLabel | internal/router/radix.go:754-772 | The binary search over a group sorted by label finds the node with the label exactly when there is one. |
| Radix.Node.Attach | internal/router/radix.go:377-378 | Appending and sorting adds exactly the one child to its group and keeps all groups in order. |
| Radix.Node.AddChild | internal/router/radix.go:298-380 | Adding a child under a pattern builds the chain of typed nodes for all its segments below it; the returned node is the one at the end of the whole pattern, and every new node satisfies the invariant once its endpoint is set. |
| Radix.Node.ReplaceChild | internal/router/radix.go:382-392 | The static child with this label is present, is replaced in place and the new child takes its label and tail: the panic is never reached. |
| Radix.Node.GetEdge | internal/router/radix.go:394-405 | The edge of this type, label, tail and regexp is found exactly when the node has it. |
| Radix.Node.SetEndpoint | internal/router/radix.go:407-419 | Only the entry of this operation changes, to the handler, the pattern and the pattern's own names. |
| Radix.Node.SplitEdge | internal/router/radix.go:263-273 | A new node takes over the common prefix and the pending insertion, the old child keeps its subtree behind the rest of its edge, and every other node is untouched. |
| Radix.Node.InsertSplit | internal/router/radix.go:263-290 | Splitting an edge, then ending at the middle node or adding a second edge below it, completes the insertion in a tree that satisfies the invariant everywhere. |
| Radix.Node.InsertEdge | internal/router/radix.go:234-241 | Creating a missing edge completes the insertion in a tree that satisfies the invariant everywhere. |
| Radix.Node.InsertLoop | internal/router/radix.go:206-262 | The descent ends, keeps the invariant at every node it leaves, and returns the node that the pattern's tokens lead to. |
| Radix.Node.InsertRoute | internal/router/radix.go:202-292 | Insertion is a map update: the route table of the tree afterwards is the old one with only the entry of this operation and token sequence overwritten, and the representation invariant holds at every node. |
| Radix.Node.FindEdge | internal/router/radix.go:466-472 | The static child for the next byte is found exactly when there is one. |
| Radix.Node.ParamLength | internal/router/radix.go:482-502 | The number of bytes a parameter edge takes is `n` if and only if the first `n` bytes are a piece its token may take before the rest: up to the first delimiter, or all when the delimiter is `/` and absent; no `/` in a `{name}`; not empty, and accepted, for a regexp. |
| Radix.Node.TakeParam | internal/router/radix.go:504-526 | One parameter edge: on success the captures pushed are exactly the route's, on failure the stack is as before and no live match behind this edge is missed. |
| Radix.Node.Retry | internal/router/radix.go:529-564 | The retry with an empty capture, with the same promise; it restores the stack exactly. |
| Radix.Node.TryStatic | internal/router/radix.go:466-472 | The static group: found means a live match that no live strict match precedes; not found means no live strict match begins with a literal byte, and nothing is left on the stack. |
| Radix.Node.TryParams | internal/router/radix.go:474-529 | A whole group of parameter edges, with the same promise. |
| Radix.Node.TryRest | internal/router/radix.go:531-536 | The trailing `*` takes the whole rest of the path, also an empty one, with the same promise. |
| Radix.Node.Search | internal/router/radix.go:448-568 | The backtracking search over all groups: it finds a node exactly when a live route matches (laxly at least), that route comes first in the search order, the keys and values pushed are that route's names and captures, and a failed search leaves the capture stack unchanged. |
| Radix.Node.FindRoute | internal/router/radix.go:421-444 | The search from the root, with the captures handed to the request: sound, and complete for every strict match; complete for lax matches too when no two regexps compete. |
| Routers.Router.Register | internal/router/router.go:42-49 | One registration is appended to the log, and the tree again holds exactly what replaying the log gives. |
| Routers.ReplayHolds | internal/router/radix.go:407-419 | The table holds exactly the last registration for each operation and token sequence: the last write wins, and parameter names do not tell routes apart. |
| Routers.Router.Find | internal/router/router.go:51-72 | After any sequence of registrations a lookup finds an active registration that matches and that no active strict match precedes, with that pattern's own captures; it finds nothing only when no active registration matches. |
| Routers.FindsExactlyMatches | internal/router/router.go:51-72 | Soundness and completeness: on a path that no regexp matches only through the retry, a handler is found if and only if an active registration matches, and it is the handler of such a registration. |
| Captures.ParamMatches | internal/router/radix.go:482-517 | A parameter between a slash and plain text matches exactly the texts it may take, for every delimiter. |
| Captures.FindParam | internal/router/radix.go:421-444 | Registering such a pattern and looking up a path returns the handler, with the text under the parameter's name, if and only if the text holds no `/` (for a `{name}`) or the anchored regexp accepts it (or it is empty). |
| Captures.FindByExtension | internal/router/radix.go:496-502 | So with `/{n}` before an extension the handler is found if and only if there is no `/` in what stands before the extension. |
| Captures.FindText | internal/router/radix.go:496-502 | For example, `/{name}.txt` is found for `/a.txt` and not for `/a/b.txt`. |
| Captures.FindYear | internal/router/radix.go:654-691 | And `/{y:[0-9]{4}}` is found for `/2024` if and only if the engine accepts `2024` for `^[0-9]{4}$`. |
| Routers.AnswersAgree | internal/router/radix.go:448-568 | Precedence determines the answer: two answers to the same lookup are the same registration, unless the two patterns part at an open pair of parameters. |
| Routers.ParamsAreCaptures | internal/router/router.go:64-70 | The parameter map has exactly the names of the matched pattern, each with the text captured at its position. |
| Routers.BuildParams | internal/router/router.go:64-70 | The loop over keys and values builds the map of the pairs. |
| Routers.MergeParams | internal/router/router.go:126-135 | The handler gets the captures, overlaid with the request's own parameters. |
| Routers.Router.Serve | internal/router/router.go:118-135 | A request is answered with "no handler registered" exactly when the lookup finds nothing; otherwise the handler found is called with the merged parameters. |
| RegexpRetry.RetryAddsNothing | internal/router/radix.go:529-556 | For patterns without regexps the empty-capture retry neither adds nor changes a match, on any path. |
| RegexpRetry.SafeWithoutRegexps | internal/router/radix.go:529-556 | So a router without regexp parameters is safe on every path. |
| RegexpRetry.LaxIsStrict | internal/router/radix.go:529-556 | On a path without empty segments a pattern whose regexps are whole segments matches only as it should. |
| RegexpRetry.StrictExactlyWhen | internal/router/radix.go:485-564 | For every pattern, path and engine: a lax match is a strict one if and only if the pattern nowhere comes to one of its own regexps with that regexp's delimiter in front of it. |
| RegexpRetry.StrictByCaptures | internal/router/radix.go:485-564 | The same by what was captured: a lax match is a strict one if and only if no regexp has captured the empty text. |
| RegexpRetry.RegexpSafeExactlyWhen | internal/router/radix.go:485-564 | A path is safe from the retry if and only if no active registration that competes for it stands at the delimiter of one of its own regexps. |
| RegexpRetry.LookupIsRightExactlyWhen | internal/router/radix.go:485-564 | Judged by the answer: a lookup is right, that is, finds something exactly when an active registration matches and then one that does, if and only if the pattern it reports does not stand at its own delimiter. |
| RegexpRetry.RightExactlyWhen | internal/router/radix.go:448-568 | Before the lookup, where no two regexps compete and the search order leaves no choice at the front: the lookup is right if and only if the lax match that comes first does not stand at its own delimiter. |
| RegexpRetry.RightByFirst | internal/router/radix.go:448-568 | With a choice at the front: right when none of the lax matches that can come first stands at its own delimiter, wrong when there are such matches and all of them do. |
| RegexpRetry.FindRight | internal/router/radix.go:421-444 | The same of a router's own lookup. |
| RegexpRetry.AnswersRightExactlyWhen | internal/router/radix.go:448-568 | With any regexps: every answer that the search order allows is right if and only if each registration that stands at its own delimiter is searched after one that matches. |
| RegexpRetry.LiteralOvertakes | internal/router/radix.go:466-472 | The retry need not come to bear: with the plain path registered beside the pattern with a regexp put into it, the path is not safe and yet every answer is right. |
| RegexpRetry.SafeExactlyWhen | internal/router/radix.go:485-564 | A path is safe for all routers whose regexps are whole segments, and every engine, if and only if it has no empty segment or does not begin with `/`. |
| RegexpRetry.SafeForAllExactlyWhen | internal/router/radix.go:485-564 | Without that condition on the routers only `/` is safe, among the paths that begin with `/` and have no braces or stars. |
| RegexpRetry.RetryMatches | internal/router/radix.go:529-556 | Wherever a regexp is put into a plain path, the router with that single pattern has no match for the path, and the pattern competes for it all the same, for every engine. |
| RegexpRetry.FindsThroughRetry | internal/router/radix.go:529-556 | And registering the pattern and looking the path up does return its handler. |
| RegexpRetry.RetryMatchesWithin | internal/router/radix.go:529-556 | A concrete case without empty segments: `/a{x:[0-9]+}b` competes for `/ab`, which it does not match. |
| RegexpRetry.RetryMatchesEmpty | internal/router/radix.go:529-556 | A concrete case with an empty segment: `/{x:a}/x` competes for `//x`, although its regexp accepts nothing. |
| RegexpRetry.RetryReturnsUnmatched | internal/router/radix.go:529-556 | In both cases the handler is returned, for every engine. |
| Listing.GroupByPattern | internal/router/radix.go:581-594 | A node's endpoints grouped by pattern: one group for each non-empty pattern, with exactly its endpoints. |
| Listing.OwnRoutes | internal/router/radix.go:577-611 | One node's part of the listing holds each of its patterns once, with exactly the handlers that are not nil. |
| Listing.Walk | internal/router/radix.go:574-631 | The listing of the tree holds each live operation, pattern and handler, and nothing else, and each pattern once. |
| Listing.HandlerMap | internal/router/router.go:105-113 | The map by operation and pattern holds exactly the listed handlers. |
| Listing.MapDetermined | internal/router/router.go:105-113 | That map is determined by the handlers listed, not by the order of the listing. |
| Globs.GlobToRegex | internal/router/tree.go:62-79 | The loop of the first translator writes the expression that `GlobFragment` and `RegexIsGlob` are about. |
| Globs.GlobFragment | internal/router/tree.go:62-79 | That expression is made of `.`, `.*`, escaped metacharacters and bytes that are no metacharacters: every metacharacter is escaped, and nothing else. |
| Globs.PlusIsEscaped | internal/router/tree.go:72-73 | For example, the glob `a+b*` becomes `a\+b.*`. |
| Globs.GlobMatchExactlyWhen | internal/router/tree.go:40-45 | A glob matches a text if and only if the text can be cut into one piece for each character, any text for `*`, one byte for `?`, and the byte itself otherwise. |
| Globs.RegexIsGlob | internal/router/tree.go:62-79 | On text without line breaks the translated expression matches what the glob matches, where an unescaped metacharacter never stands for itself. |
| Globs.FaithfulExists | internal/router/tree.go:46-60 | There is an engine that gives all ASCII expressions of this kind their meaning on ASCII text, so what is assumed of the engine can be met. |
| Globs.ComponentMatches | internal/router/tree.go:46-60 | A component without wildcards matches itself only, whatever the engine; with an engine that is faithful on ASCII, an ASCII glob matches exactly the ASCII components, in one line, that it means. |
| Globs.ConvertGlobSegment | internal/router/radix.go:793-820 | The translator for router patterns writes the same anchored expression, and leaves a segment without wildcards alone. |
| Globs.ConvertGlobPattern | internal/router/radix.go:829-877 | Part by part translation: middle `*` and globs become numbered regexp parameters, everything else stays, and the map records which part each generated name stands for. |
| GlobMeaning.ConvertedReads | internal/router/radix.go:635-719 | Printer and parser undo each other: the translated pattern parses and gives back one token group and one name for each part, in order, with each glob's own anchored expression. |
| GlobMeaning.ConvertedIsValid | internal/router/radix.go:635-719 | A glob pattern whose own names are distinct and do not look generated is translated to a pattern on which the parser never panics. |
| GlobMeaning.GlobReadsExactlyWhen | internal/router/radix.go:656-666 | A single glob with braces of its own is read back as that glob if and only if its braces are balanced: they are escaped for the regexp and counted by the parser all the same. |
| GlobMeaning.GlobMeaningKept | internal/router/radix.go:829-877 | Compilation preserves meaning: the translated pattern matches a path of non-empty components exactly when the parts match one by one, a middle `*` any one component, a final `*` all the rest, provided that globs and middle wildcards meet ASCII components in one line. |
| GlobMeaning.KeyNumbers | internal/router/radix.go:845-871 | The names of a translated pattern are its own and the numbers of its middle wildcards and globs. |
| GlobParams.PartNamesAre | internal/router/radix.go:845-871 | The map of generated names: the k-th wildcard name stands for the k-th middle `*`, the k-th glob name for the k-th glob. |
| GlobParams.OnlyPartNames | internal/router/radix.go:845-871 | It has no other names. |
| Segments.TextReads | internal/router/radix.go:635-719 | A pattern given by whole segments parses to the tokens and names of those segments. |
| Segments.ParamHead | internal/router/radix.go:654-691 | A parameter, its regexp with balanced braces of its own, reads as its token and name, delimited by the byte that follows. |
| Captures.YearTokens | internal/router/radix.go:654-691 | The tokens of `/{y:[0-9]{4}}`: a slash and one regexp, `^[0-9]{4}$`. |
| Segments.MatchSegments | internal/router/radix.go:474-527 | Such a pattern matches a path of non-empty components exactly when the segments match one by one, and captures one component for each parameter and the rest for a final `*`. |
| GlobLookups.GlobLookup | internal/script/registry.go:31-54 | End to end for a router of translated globs, under the same proviso: a lookup finds a handler if and only if an active glob pattern matches the components of the path, and it is the handler of such a pattern. |
| Registries.Registry.Register | internal/script/registry.go:30-47 | The handler is registered under the translation of its pattern, and the maps remember handler, translation and generated names. |
| Registries.WithHandlerIs | internal/script/registry.go:31-38 | The handler is remembered under its operation and pattern, and all others stay. |
| Registries.Registry.FindHandler | internal/script/registry.go:49-101 | The router's answer, with the parameters renamed in some order of the map. |
| Registries.RenamedIs | internal/script/registry.go:66-98 | Without a clash every name a script sees holds the value of the parameter it stands for, and every parameter is seen under all its names. |
| Registries.WildcardTargets | internal/script/registry.go:72-93 | The k-th middle wildcard is seen as `*k`, the first also as `*`. |
| Registries.RenamingDeterministic | internal/script/registry.go:66-98 | Without a clash the order in which the map is visited does not matter. |
| Registries.DeterministicExactlyWhen | internal/script/registry.go:66-98 | For the parameters of translated patterns the result is independent of the map order if and only if a final `*` and a first middle wildcard are not both present with different captures. |
| Registries.StarClashMatters | internal/script/registry.go:84-97 | With such a clash two orders give a script different values for `*`. |
| Registries.RenamingOfPattern | internal/script/registry.go:66-98 | For parameters of a translated pattern that do not clash all orders give the same result. |
| Registries.RenamedFrom | internal/script/registry.go:66-98 | Clash or not, a name is seen exactly when a parameter stands for it, and holds the value of such a parameter. |
| GlobParams.AnswerParams | internal/script/registry.go:51-53 | What a lookup through translated globs captures: the matched pattern's segments with their components. |
| GlobParams.OwnValueIs | internal/router/radix.go:829-877 | A name of the glob pattern's own captures the component at its part, a final `*` all the rest. |
| GlobParams.StarsAre | internal/router/radix.go:845-871 | The k-th generated wildcard name captures the component at the k-th middle `*`. |
| GlobParams.ClashExactlyWhen | internal/script/registry.go:72-97 | A clash is read off pattern and path: the parameters clash if and only if the pattern has a middle `*` and a `*` of its own, and the component at the first is not the text of the other. |
| GlobParams.ClashNeedsBoth | internal/script/registry.go:72-97 | Only a pattern that combines the two can clash, on any path. |
| GlobParams.DeterministicOnPath | internal/script/registry.go:66-98 | What a script sees of a path is independent of the map order if and only if pattern and path do not clash. |
| GlobParams.DeterministicPattern | internal/script/registry.go:66-98 | For a pattern that does not combine the two it is, on every path. |
| GlobParams.SeesIs | internal/script/registry.go:66-98 | What is handed on, in any order: each own name with its component, `*k` with the component at the k-th middle `*`, one `*` with the first of these or the final text, nothing for a glob, and nothing else. |
| GlobParams.SeesOnce | internal/script/registry.go:66-98 | Without a clash these conditions determine the map. |
| GlobParams.FindGlob | internal/script/registry.go:49-101 | The same of a registry's own lookup: the handler of an active pattern, the parameters a script sees, when they are the only possible ones, and, for a faithful engine, exactly when there is a handler. |
| GlobParams.StarsCollide | internal/script/registry.go:49-101 | A clash does happen: with the pattern of a middle `*`, a word and a final `*`, a lookup of `/a/x/b` gives parameters for which two orders differ. |
| Components.TypeMore | internal/router/tree.go:134-163 | What one more route does to the type of a node: a file on its way becomes a directory, and nothing else changes. |
| Components.GlobNodesExactlyWhen | internal/router/tree.go:129-153 | A node is a glob if and only if its name, unless it is `*`, matches another text than itself; a file or directory stands for its name alone. |
| Components.LastPattern | internal/router/tree.go:167-169 | A node shows the pattern of the last route that ends there. |
| Components.LastHandler | internal/router/tree.go:167-169 | And for each operation the handler of the last such route. |
| Components.OrderIndependent | internal/router/tree.go:110-170 | When no two patterns have the same components, every enumeration order gives every place the same node. |
| Components.OrderIndependentExactlyWhen | internal/router/tree.go:110-170 | The tree is the same for all enumeration orders if and only if no two patterns have the same components. |
| Components.SlashesDoNotCount | internal/router/tree.go:173-179 | Patterns that differ by a slash at an end have the same components. |
| Components.EmptyComponentExactlyWhen | internal/router/tree.go:172-179 | A path has an empty component if and only if two slashes follow each other when those at its ends are dropped. |
| Components.EmptyComponentStays | internal/router/tree.go:172-179 | A path such as `/a//b` has three components, the middle one empty. |
| Trees.ChildType | internal/router/tree.go:129-153 | The type of a new node: glob before wildcard before parameter before file or directory. |
| Trees.Enter | internal/router/tree.go:155-164 | One step down: the child is added or upgraded from file to directory, and no other node changes. |
| Trees.AddRouteToTree | internal/router/tree.go:124-170 | Adding a route changes the nodes on its way and the node at its end, as the value of the tree says. |
| Trees.AddedBuilt | internal/router/tree.go:124-170 | Adding a route to the tree of some routes gives the tree of those routes and the new one: its places, types, patterns and handlers. |
| Trees.BuildTree | internal/router/tree.go:110-121 | The tree built holds exactly the routes of the map, each added once, in the order in which the maps happened to be visited. |
| Trees.TreesAgree | internal/router/tree.go:110-121 | Two trees built from the same map are the same at every place, when no two patterns have the same components. |
| Navigation.PickGlob | internal/router/tree.go:201-209 | The loop finds a glob child that matches the component, if there is one. |
| Navigation.Choose | internal/router/tree.go:196-238 | The child the walk takes: by name, else a matching glob, else a parameter, else the wildcard, which takes all the rest when it is a leaf; none only when no such child exists. |
| Navigation.TakesExactlyWhen | internal/router/tree.go:196-238 | A move of the walk is one to a fitting child of the most preferred kind, by name, glob, parameter, wildcard in this order, and each of these is a move. |
| Navigation.FindNode | internal/router/tree.go:184-242 | The walk makes allowed moves only; it returns the node they lead to with the captures noted on the way when they consume all components, and nil exactly when it comes to a component for which no move is allowed. |
| Navigation.BuiltNamed | internal/router/tree.go:130-149 | In a built tree only the component `*` is a wildcard node and only a braced one a parameter node, so cutting off the braces is never out of bounds. |
| TwoIndexes.InTableIsActive | internal/router/router.go:101-116 | What the router's table lists is exactly the active registrations. |
| TwoIndexes.GetTree | internal/router/router.go:101-116 | The component tree of a router is built from exactly its active registrations. |
| TwoIndexes.TreeOfActiveRoutes | internal/router/router.go:101-116 | The component tree depends only on the active registrations: two routers with the same ones have the same tree, whatever their histories and the order of their maps, when no two patterns have the same components. |
| TwoIndexes.AnswerElsewhere | internal/router/router.go:51-72 | So does a lookup: what one history allows as an answer, every history with the same active registrations allows. |
| TwoIndexes.LookupOfActiveRoutes | internal/router/router.go:51-72 | On a safe path the answers of two such routers are the same handler, parameters and pattern, unless the two patterns part at an open pair of parameters. |
| TwoIndexes.FindInBoth | internal/router/router.go:51-72 | The same of the two routers' own lookups. |
| TwoIndexes.PlainText | internal/router/tree.go:173-179 | Every sequence of plain segments is what its text splits into, so the plain patterns are the texts of plain segments. |
| TwoIndexes.WalkMatches | internal/router/tree.go:188-242 | A walk that ends at the node of a plain route matches that route, and notes exactly its captures. |
| TwoIndexes.WalkIsFirst | internal/router/tree.go:188-242 | The route at which the greedy walk ends comes first, in the radix tree's search order, among the plain routes that match the path. |
| TwoIndexes.IndexesAgree | internal/router/tree.go:188-242 | Two indexes agree: for literal, whole-segment `{name}` and final `*` patterns with one name at each position, and components without braces or stars, when the walk reaches a node with a handler for the operation, the lookup of the same path finds that handler with the same parameters. |
| TwoIndexes.ServedWithCaptures | internal/router/router.go:118-135 | A transport that passes the walk's parameters with its request changes nothing: the handler is called with exactly the captures of its own pattern. |
| TwoIndexes.WalkMayMiss | internal/router/tree.go:196-199 | The converse is false: with `/a/b` and `/{x}/c` the walk is stuck on `/a/c`, which the second pattern matches. |
| Shadowing.ReachesExactlyWhen | internal/router/tree.go:196-235 | The walk goes through the segments of a matching plain route if and only if nothing shadows it on the path: where it has a parameter or a final `*` no child bears the component's own name, and where it has a final `*` no child is a parameter. |
| Shadowing.FoundIsReachedExactlyWhen | internal/router/tree.go:188-242 | The exact converse: a handler that the lookup finds is one the walk arrives at, as the same handler, if and only if its route is not shadowed on the path. |
| Shadowing.LookUpBothWays | internal/router/tree.go:188-242 | Asking the router and its component tree for one path: when the walk has a handler both give the same handler and parameters, and when the lookup has one the walk has one exactly when the route is not shadowed. |
| Stepping.FindChild | internal/ninep/server.go:140-183 | One step of the 9p server: the allowed child for a name and its own captures, or none exactly when there is no such child. |
| Stepping.FindChildWith | internal/fuse/server.go:54-112 | One step of the FUSE server: the same child, with the captures inherited from the parent. |
| Stepping.StepsExactlyWhen | internal/fuse/server.go:54-112 | The transports prefer the same kinds in the same order, among children whose own name is not taken for a match. |
| Transports.StepReports | internal/fuse/server.go:78-104 | A step through `{n}` reports the component under `n` and nothing else, one through `*` under `*`, any other nothing; what was inherited stays, except under that name. |
| Transports.MoveReports | internal/router/tree.go:211-236 | The one-shot walk notes the same, and all the rest for a final `*`. |
| Transports.StepDown | internal/ninep/server.go:140-183 | Registering a word followed by `{n}` or `*`, building the tree and stepping down reports exactly the second component under `n` or `*`, from both servers. |
| Transports.StepToUser | internal/ninep/server.go:163-176 | For example, with `/users/{id}` the name `42` below `users` is reported as `id`, and nothing else. |
| Transports.WalkThroughStar | internal/router/tree.go:217-236 | In the tree of a pattern with `*` in the middle the one-shot walk takes one component for it, reports it under `*`, and comes to the handler. |
| Stepping.InheritedIsOverlay | internal/fuse/server.go:78-104 | What the FUSE server reports is what it inherited, overlaid with what the 9p server reports. |
| Stepping.StepIsMove | internal/fuse/server.go:56-112 | On a name that is not a pattern node's own, in a tree without wildcards, a step is a move of the one-shot walk and the other way round. |
| Stepping.Navigate | internal/fuse/server.go:54-112 | Going name by name, as the transports do, reaches the node and the parameters of a one-shot walk, or stops where such a walk is stuck. |
| Stepping.OneWalk | internal/router/tree.go:188-242 | With one parameter and one matching glob at most at each node there is only one such walk. |
| Stepping.NavigateBothWays | internal/fuse/server.go:54-112 | So going name by name and looking the whole path up give the same node and parameters. |
| Transports.PlainIsSimple | internal/router/tree.go:129-153 | The tree of a plain router without final `*` meets what is asked of trees there. |
| Transports.PlainIsOrdinary | internal/router/tree.go:129-153 | So do names without braces and stars, in a tree with one parameter a node. |
| Transports.AskThreeWays | internal/fuse/server.go:54-112 | Hence for such a router going name by name, looking the whole path up in the tree, and the router's own lookup give the same handler and parameters, when the walk comes to one. |
| FuseCache.StepInv | internal/fuse/server.go:562-600 | Every step of every thread keeps the invariant: who holds the mutex, and how new the cache and every result are. |
| FuseCache.RunInv | internal/fuse/server.go:562-600 | The invariant, and the history of every operation, hold after every interleaving. |
| FuseCache.FetchAfterWriteIsFresh | internal/fuse/server.go:564-600 | With a read handler, a fetch that starts after a write has returned yields the reply to a read-handler call that began after that write's handler had ended, under every interleaving. |
| FuseCache.FetchYieldsLaterResponse | internal/fuse/server.go:833-864 | Without a read handler it yields the response of that write or of one whose cache update came later. |
| FuseCache.ListingYields | internal/fuse/server.go:531-560 | What a listing fetch yields, in every run: the text of one answer of its handler and no error, or that answer's error and no text. |
| FuseCache.FileYields | internal/fuse/server.go:579-600 | What a file's fetch yields: the text of one answer, or its error; an error that speaks of no handler is an empty text without error. |
| FuseCache.UnwrittenIsEmpty | internal/fuse/server.go:588-593 | Without a read handler a file is empty until it is written. |
| FuseCache.SaysExactlyWhen | internal/fuse/server.go:589 | An error speaks of no handler if and only if the phrase stands somewhere in it. |
| FuseCache.CanFinish | internal/fuse/server.go:562-600 | No deadlock: from wherever a run has come, the fetches and writes it has started can all return, without new ones. |
| FuseCache.OneCallBetweenUpdates | internal/fuse/server.go:572-600 | Between two cache updates the read handler is called at most once when its answer fills the cache. |
| FuseCache.FetchesShareOneSnapshot | internal/fuse/server.go:564-600 | Until the next update every fetch that starts after that call began sees that one answer. |
| FuseCache.ListingCalledOnce | internal/fuse/server.go:507-560 | The listing handler is called at most once in the lifetime of a node, whatever it answers. |
| WriteBuffers.WriteBuffer.WriteAt | internal/sshfs/server.go:594-623 | A write lays its chunk over the buffer, sends everything up to its end to the router, and keeps a non-empty response for later reads. |
| WriteBuffers.WriteBuffer.Lay | internal/sshfs/server.go:597-602 | Growing fills the gap with zeros and keeps what was there; the chunk is copied in place. |
| WriteBuffers.BufferLength | internal/sshfs/server.go:597-602 | The buffer is as long as the farthest chunk end. |
| WriteBuffers.LastWins | internal/sshfs/server.go:594-602 | Every byte is that of the last chunk that covers it. |
| WriteBuffers.UntouchedIsZero | internal/sshfs/server.go:597-601 | A byte no chunk covers is zero. |
| WriteBuffers.OrderOfChunks | internal/sshfs/server.go:594-602 | Chunks that lie apart give the same buffer in any order. |
| WriteBuffers.ContiguousIsJoined | internal/sshfs/server.go:602-608 | For chunks in order without gaps the buffer, and each payload sent to the router, is the concatenation so far. |
| WriteBuffers.PayloadIs | internal/sshfs/server.go:602-607 | For every chunk the payload ends where the chunk ends and is what the buffer then holds: the chunk, and before it what was there, or zeros. |
| WriteBuffers.ListAt | internal/sshfs/server.go:631-644 | A page holds the entries from the offset on and leaves the rest of the caller's buffer alone; the end is reported exactly when nothing is left, except for a first page that is exactly full. |
| NinepFiles.Cut | internal/ninep/server.go:418-432 | A window is the part of the text from the offset on; the slice is out of bounds exactly when offset and count overflow 64 bits with the offset inside the text. |
| NinepFiles.WindowIs | internal/ninep/server.go:424-430 | A window is as long as it may be, and its bytes are those of the text from the offset on. |
| NinepFiles.WindowsJoin | internal/ninep/server.go:415-455 | Two windows in a row are one window. |
| NinepFiles.WindowsGiveText | internal/ninep/server.go:415-455 | Windows of any sizes in a row give the beginning of the text, and all of it once their sizes add up to its length. |
| NinepFiles.RouterFile.Read | internal/ninep/server.go:415-455 | A read is cut from the kept response, else from the handler's answer, else empty; no 32-bit count is out of bounds. |
| NinepFiles.RouterFile.Write | internal/ninep/server.go:457-480 | The response is kept exactly when the write succeeds and the path has no read handler. |
| NinepFiles.ReadBack | internal/ninep/server.go:415-480 | After a successful write to a path without a read handler, any sequence of reads in a row yields the beginning of the response, and all of it once they ask for enough. |
| LuaConvert.GoToLuaValue | internal/lua/modules/convert.go:75-113 | Go to Lua, with tables filled entry by entry, is the conversion function; an unsupported type anywhere is an error. |
| LuaConvert.ScalarsToLua | internal/lua/modules/convert.go:76-90 | Both integer types and the float of equal value become the same Lua number; the other scalars stay what they are. |
| LuaConvert.FailsExactlyWhen | internal/lua/modules/convert.go:91-113 | The conversion is an error if and only if there is an unsupported type somewhere inside. |
| LuaConvert.ConvertedEntries | internal/lua/modules/convert.go:91-109 | The entries of a converted container are its converted elements, by position from 1 on or by key, except that nil is not stored. |
| LuaConvert.LuaValueToGo | internal/lua/modules/convert.go:11-72 | Lua to Go, with the table measured and then read as a list or a map, is the conversion function. |
| LuaConvert.Measure | internal/lua/modules/convert.go:21-34 | The loop over the keys recognises a list exactly when the largest rounded number key is the number of keys. |
| LuaConvert.ListCount | internal/lua/modules/convert.go:91-99 | Setting nil deletes: a list's table has as many keys as the list is long exactly when no element is nil. |
| LuaConvert.ListSurvives | internal/lua/modules/convert.go:35-46 | A list comes back unchanged exactly when it is not empty and all its elements come back and are not nil. |
| LuaConvert.MapSurvives | internal/lua/modules/convert.go:48-69 | A map comes back unchanged exactly when all its values come back and are not nil. |
| LuaConvert.RoundTripsExactlyWhen | internal/lua/modules/convert.go:11-113 | The round trip returns a value unchanged if and only if it is nil, or is built from booleans, floats, strings, non-empty lists and string-keyed maps with no nil inside. |
| LuaConvert.ComesBackExactlyWhen | internal/lua/modules/convert.go:11-113 | The round trip from Lua returns a value unchanged if and only if it is nil, a boolean, a number or a string, or a table with exactly the keys 1 to n, n at least 1, or with string keys only, whose values all come back. |
| LuaConvert.ListComesBack | internal/lua/modules/convert.go:35-46 | A table read as a list comes back exactly when its keys are 1 to n and its values come back. |
| LuaConvert.MapComesBack | internal/lua/modules/convert.go:48-69 | A table read as a map comes back exactly when its keys are strings and its values come back. |
| LuaConvert.MixedTableAsList | internal/lua/modules/convert.go:35-46 | A table that does not: with a gap and a string key it passes for a list, the gap becomes nil and the string entry is lost. |

## Left out

- Mounting, sockets, SSH keys, the SCP handlers, and the 9p and FUSE libraries: input and output.
- Lua and Tengo executors, HTTP, OAuth, JSON and YAML modules: wrappers over foreign runtimes and libraries.
- Compilation of regular expressions: a user expression that does not compile makes `addChild` panic; the
  engine here accepts every expression, and general expressions have no semantics.
- Registries.Registry.FindHandler: the cast of the handler to `ServeHandler` always succeeds here, since handlers have one type.
- Routers.Router.Register: the panics on a malformed pattern, and the half-built tree some of them leave behind, are excluded by the precondition; the parser's own panics are modelled.
- Routers.Router.Serve: does not call the handler and does not model handlers without a `Serve` method.
- Radix.SortNodes: the order of siblings with equal labels, which Go's sort leaves open, is not specified either.
- Radix.Node.Search: the loop over the five groups is written out group by group, each in its own method.
- Navigation.FindNode: the loops over the children are methods of their own; the parameter map is passed along as a value instead of being shared and written.
- WriteBuffers.WriteBuffer.WriteAt: the payload is a copy; in the code it shares memory with the buffer. Additions do not overflow.
- GlobLookups.GlobLookup: globs and middle wildcards that meet text outside ASCII, or with line breaks, where the meaning of a compiled glob is that of Go's UTF-8 reading.
- LuaConvert.LuaValueToGo: numbers are reals, so NaN, infinities and rounding are left out, and so are the texts of errors.
- FuseCache.StepInv: a handler takes arbitrarily long and answers anything; whether a read handler is registered does not change during a run. Cached sizes, `Setattr` and `Getattr`, and the parsing of a listing into names are not modelled.
- Stepping.Navigate: `Lookup` and `Walk` of the transports beyond `findChild`, and entries that come from listing handlers.
- `RoutePattern`, `Registry.BuildTree`, the unused `subroutes` field and the node type for globs that the radix tree never produces.
- `GetAllRoutePaths`, `Walk` of the router, and the accessors of tree nodes: easy consequences of the listing.
