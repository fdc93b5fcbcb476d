# A verified model of the ATI core

ATI is a tool gateway for agents: it issues revocable keys, loads tool manifests, turns OpenAPI
documents into tools, rewrites arguments and templates before a call, and caches credentials. This
project models the parts of it where several steps, pods, orders or crashes interact, and proves what
they keep. `dafny verify dfyconfig.toml` checks everything.

| File | What it models |
|---|---|
| `RevokeFilter.dfy` | the bulk-revocation filter: emptiness guard, LIKE escaping, WHERE clause with placeholders |
| `KeyTables.dfy` | the key tables, the audit log and the NOTIFY channel; issue, revoke and bulk revoke as transactions |
| `KeyProtocol.dfy` | the distributed protocol: pods with caches, a lossy NOTIFY channel, reads and fills as separate steps |
| `Listener.dfy` | the reconnect loop of the LISTEN task |
| `OutputCapture.dfy` | the rewriting of CLI output paths by named flags and positional rules |
| `Expansion.dfy` | the rescanning `${NAME}` expansion, with its two look-ups, and when it equals one pass |
| `Rewriting.dfy` | loops that rewrite a text from left to right, and how they end on parts of it |
| `References.dfy` | names whose values refer to names: how deep they nest, and cycles |
| `ExpansionTermination.dfy` | when that expansion ends |
| `PathTemplate.dfy` | path-parameter substitution and percent-encoding |
| `PathOrder.dfy` | on which templates the order of the path parameters matters |
| `PathDots.dfy` | on which templates two dots in a row can arise in a path |
| `SchemaResolution.dfy` | JSON values and depth-bounded `$ref` resolution |
| `InputSchema.dfy` | the input schema generated for an operation |
| `ArgumentRouting.dfy` | defaults, the routing of arguments to path, query, header and body, and arrays in the query |
| `RequestAssembly.dfy` | the request that is sent: header check, endpoint, query pairs, headers, body; which arguments it carries |
| `AuthCaching.dfy` | the credential cache with its sweep |
| `Manifests.dfy` | manifests, the tool index, discovered tools |
| `PlanArgs.dfy` | printing plan arguments as command-line words and parsing them back |
| `EdgeKeyring.dfy` | the keyring files of an edge machine under crashes |
| `KeyEncoding.dfy` | DER wrapping of public keys, PEM text, and the stripping of PEM |
| `Base.dfy` | option and result types, white space, facts about texts |

Objects that the source updates in place are classes (`KeyStoreDb`, `ListenTask`, `AuthCache`,
`ManifestRegistry`, `EdgeDir`); loops are methods with invariants, each proved against a function; the
theorems are lemmas about those functions. A hash map's arbitrary iteration order is an arbitrary choice
in the loop, so results hold for every order. Randomness (fresh key hashes, temporary names, nonces), the
clock, JSON text, UTF-8, lower case, base64, encryption and the token fingerprint are parameters; where a theorem needs a law
about one of them, the law is a `requires` of that theorem.

Where the code and what is said about it differ, the model follows the code:

- `src/core/keys.rs` opens with "Revocation is immediate". A lookup that has read the row before the revocation
  commits answers with it, and can cache it, after the NOTIFY has been delivered. `KeyProtocol.RevokedKeyCanBeServed`
  is such a run, `KeyProtocol.RevokedKeyIsAnsweredExactlyIfStraddling` says exactly when a connected pod answers with a
  revoked key, and `KeyProtocol.RevokedKeyExpires` bounds how long it can last.
- The expansion need not end: `ExpansionTermination.LoopEndsExactlyIfAcyclic` says exactly when it does, and
  `ExpansionTermination.SelfReferenceDiverges` covers the plainest case. Where a template has a `$` directly before
  a placeholder, an inserted value can be read as the start of another one; `Expansion.TemplateIsOnePassExactlyIfClean`
  says that this is the only way.
- With a placeholder inside another pair of braces, the path depends on the iteration order of a hash map:
  `PathOrder.OrderFreeExactlyIfTame`.
- Values with two dots in a row are rejected, but a single `.` is not, and it can meet another dot of the path:
  `PathDots.NoTwoDotsExactlyIfDotsStayApart` says on which templates it can not, and `PathDots.DotMeetsDot` is an input.
- A field of the request body, or a later parameter, takes over a path parameter of the same name, and a cookie
  parameter is sent in the query: `ArgumentRouting.ParameterKeepsItsPlace` says exactly when a parameter keeps its
  place, with inputs in `BodyFieldTakesPathParameter`, `LaterParameterTakesArgument` and `CookieIsSentInQuery`.
- The style of an array parameter is lost if its schema is a `$ref`, and `explode` has no effect on the delimited
  styles: `ArgumentRouting.ArraysKeepTheirStyle` says exactly when the style is kept, with inputs in
  `ReferencedArrayLosesItsStyle` and `ExplodedPipesAreJoined`.
- Not every argument is sent. `RequestAssembly.ArgumentIsSentExactlyIfItHasAPlace` says exactly which are: an empty array
  in the default format, a path argument without a placeholder in the endpoint, and what is classified into the body of
  a GET or DELETE request are not (`EmptyArrayIsNotSent`, `MissingPlaceholderIsNotSent`, `BodyOfGetIsNotSent`). A denied
  header or a rejected path value stops the whole request (`RequestAssembly.RefusedExactlyIfSomeArgumentStops`).
- Lengths of 65536 and more are cut to sixteen bits in DER; `KeyEncoding.SpkiRoundTrips` gives the exact limit.
- A comment in `src/core/jwt.rs` calls the key-set entry base64url; the code keeps the standard base64 text of the PEM,
  which is what `KeyEncoding.StripUndoesPem` recovers.
- A manifest whose provider name contains `:` registers tools that the prefix look-up cannot route back
  (`Manifests.RegisteredToolFindsItsProvider`).

## Model

| member | source | states |
|---|---|---|
| Base.BlankTexts | src/core/keys.rs:181-190 | a text is blank, as `trim().is_empty()` sees it, exactly if all its characters are among the 25 of Unicode white space |
| RevokeFilter.EscapeLike | src/core/keys.rs:195-204 | the escaped text: a backslash before each `%`, `_` and backslash and nothing else changed |
| RevokeFilter.EscapedReadsBack | src/core/keys.rs:195-204 | dropping one backslash before each character that has one gives the text back; exactly `%`, `_` and the backslash are escaped |
| RevokeFilter.WildcardsMatch | src/core/keys.rs:453-457 | in a pattern, `_` by itself matches any one character and `%` any text |
| RevokeFilter.EscapedPrefixMatches | src/core/keys.rs:453-457 | the escaped prefix followed by `%` is a pattern PostgreSQL accepts, and it matches a string if and only if the string starts with the literal prefix, whatever wildcards the prefix holds |
| RevokeFilter.ClausesSelect | src/core/keys.rs:438-486 | evaluated under SQL LIKE, the conjuncts with their bound values select a row exactly if the filter's supplied fields hold of it |
| RevokeFilter.EmptyExactlyIfBlank | src/core/keys.rs:181-190 | the guard refuses a filter if and only if owner and alias prefix are each absent or all white space and the hash list is absent or empty |
| RevokeFilter.FieldsCombine | src/core/keys.rs:438-486 | each field selects by itself, a blank or empty one selects everything, and a filter selects what all its fields select |
| RevokeFilter.BuildWhere | src/core/keys.rs:438-486 | the clause is empty exactly if all fields are absent, blank or empty; placeholders are numbered 1, 2, … and bound to values of the right type; it selects exactly the rows asked for |
| KeyTables.RevokeEachRemoves | src/core/keys.rs:467-522 | deleting and burying row by row removes exactly the selected keys and sends one NOTIFY each, in that order |
| KeyTables.RevokeEachBuries | src/core/keys.rs:494-522 | over the keys in any order: they are no longer live, each has its tombstone with row and author, its audit row and its NOTIFY in that order, and nothing else changed |
| KeyTables.ApplyKeeps | src/core/keys.rs:271-532 | every transaction keeps: no hash both live and deleted, NOTIFYs naming each deleted hash once, revoke rows of the audit log matching the NOTIFYs one for one with row and author; surviving rows and old tombstones stay untouched |
| KeyTables.ReplayConsistent | src/core/keys.rs:250-532 | that invariant holds after any history, and the answers reported so far add up to the number of NOTIFYs |
| KeyTables.IssuedAreLiveOrDeleted | src/core/keys.rs:250-532 | a hash was issued if and only if it is live or deleted |
| KeyTables.SnapshotIsLastLive | src/core/keys.rs:369-390 | the snapshot of a deleted key is the last row it had while live |
| KeyTables.KeysAreConserved | src/core/keys.rs:250-532 | over any history: the issued hashes are the disjoint union of live and deleted, each deleted hash has exactly one NOTIFY, and the `true` answers plus the bulk counts equal the number deleted |
| KeyTables.DeletedKeyIsDocumented | src/core/keys.rs:369-402 | each deleted key has its last live row as snapshot and exactly one revoke row in the audit log, with that row and author |
| KeyTables.IssuesAreAudited | src/core/keys.rs:298-317 | the issue rows of the audit log are exactly the issues of the history, in order, each with its actor and row |
| KeyTables.KeyStoreDb.constructor | src/core/keys.rs:221-229 | an empty store |
| KeyTables.KeyStoreDb.Issue | src/core/keys.rs:250-319 | succeeds exactly if owner and alias are not blank, the time to live fits a duration and no live key of that owner has the alias; then the row, which expires that long from now or never, and its audit row land together, otherwise nothing changes |
| KeyTables.KeyStoreDb.Revoke | src/core/keys.rs:359-412 | answers whether the key was live; if so, the row goes, and tombstone, audit row and NOTIFY land with it, otherwise nothing changes |
| KeyTables.KeyStoreDb.BuryRows | src/core/keys.rs:494-522 | the loop gives each deleted row, once and in some order, its tombstone, audit row and NOTIFY |
| KeyTables.KeyStoreDb.BulkRevoke | src/core/keys.rs:420-532 | refused without any change exactly if owner and alias prefix are each absent or blank and the hash list is absent or empty; otherwise exactly the rows the filter asks for are revoked, documented and counted |
| KeyProtocol.StampsHold | src/core/keys.rs:319-354 | in every state of every run, each cached entry and each pending fill is the row that the live table had at a state of that run, or nothing if it had none, stored by a later step |
| KeyProtocol.AnswersAreRecent | src/core/keys.rs:333-354 | even if every NOTIFY is lost, each answer of a lookup is the row that the live table had for the hash, or nothing if it had none, less than 30 s + d ago, d bounding the gap from read or issue commit to cache insert |
| KeyProtocol.CachedAnswerIsServed | src/core/keys.rs:335-354 | an answer that a pod has cached it can give again without the database for 30 s and no longer, unless an eviction, an invalidation or a newer entry for the hash comes between |
| KeyProtocol.DisturbedIsGone | src/core/keys.rs:335-415 | an eviction, a delivered NOTIFY or a purge takes the entry out of the cache; a store puts the answer in and is done |
| KeyProtocol.AnythingMayHappen | src/core/keys.rs:335-354 | the steps that no caller controls (time, eviction, lost connections, aborted requests) and the reads of lookups are possible in every state |
| KeyProtocol.NothingWaitsUnheard | src/core/keys.rs:662-682 | a pod that is not listening has no NOTIFY waiting, and one that reconnects starts with none |
| KeyProtocol.RunIsHistory | src/core/keys.rs:250-532 | however pods interleave, the tables are those of a serial history of admissible transactions, so conservation holds in every state of every run |
| KeyProtocol.DbConsistent | src/core/keys.rs:250-532 | the table invariant holds in every state of every run |
| KeyProtocol.DeletedNeverLive | src/core/keys.rs:356-415 | once deleted, a key is never found in the database again |
| KeyProtocol.RevokedKeyExpires | src/core/keys.rs:43-44 | however lossy the channel, no lookup finds a revoked key 30 s + d after its revocation |
| KeyProtocol.CommitNotifies | src/core/keys.rs:404-412 | the step that commits a revocation hands its NOTIFY to every listening pod |
| KeyProtocol.CommitSendsExactly | src/core/keys.rs:404-412 | a commit appends to the queue of each listening pod exactly the hashes that it deleted, each once, and changes nothing else about any pod |
| KeyProtocol.NoticeArrives | src/core/keys.rs:404-415 | on a pod that kept listening, the NOTIFY is still queued or was delivered, and whatever is cached now was stored after that delivery |
| KeyProtocol.RevokedButCached | src/core/keys.rs:335-415 | a pod caching a revoked key has the NOTIFY still queued, or stopped listening at some point since the commit, or a fill straddled commit and invalidation: no other way |
| KeyProtocol.QuietPodServesNoRevokedKey | src/core/keys.rs:662-682 | connected listener, drained queue and no read that straddles the revocation: no lookup, hit or miss, answers with a revoked key |
| KeyProtocol.RevokedKeyIsAnsweredExactlyIfStraddling | src/core/keys.rs:335-354 | on a connected pod whose NOTIFY is no longer queued, a lookup answers with a revoked key if and only if its answer was read while the key was live and straddles the revocation: a cached one stored after the delivery, or a miss that had read before the commit |
| KeyProtocol.MissAnswersRevokedKey | src/core/keys.rs:339-353 | a miss answers with a revoked key if and only if it had read the database before the commit, connected or not |
| KeyProtocol.RevokerPurges | src/core/keys.rs:412-413 | the pod that commits a revocation, single or bulk, has the purge of that hash from its own cache ahead of it |
| KeyProtocol.PurgedKeyIsOnlyCachedByStraddling | src/core/keys.rs:412-414 | after its own purge, listener up or down, the revoking pod caches the key only from a read at or before the commit, stored after the purge |
| KeyProtocol.RevokedKeyCanBeServed | src/core/keys.rs:339-352 | a run of eight steps of one connected pod in which two lookups answer with a revoked key after its NOTIFY was delivered |
| Listener.OutageStartIsLastConnection | src/core/keys.rs:630-645 | an outage starts with the call that last had a connection, and has one start |
| Listener.SameOutage | src/core/keys.rs:630-645 | two failures belong to one outage exactly if no connection came up after the first |
| Listener.ListenTask.constructor | src/core/keys.rs:627-636 | initial delay of one second, no warning logged |
| Listener.ListenTask.ListenLoop | src/core/keys.rs:662-682 | a connection that comes up resets delay and warning flag; a failed connect leaves both |
| Listener.ListenTask.Run | src/core/keys.rs:637-658 | for every sequence of connects and drops: the k-th failure of an outage is followed by a sleep of min(2^k, 30) seconds, and exactly one warning is logged per outage, at its first call |
| Listener.DelaysOfAnOutage | src/core/keys.rs:637-658 | the delays of an outage are 1, 2, 4, 8, 16 and from then on 30 seconds |
| OutputCapture.BestWins | src/core/cli_executor.rs:298-318 | the chosen rule matches, leaves enough arguments, is longest among the matching ones, and is the first tried among equals |
| OutputCapture.OrderIrrelevant | src/core/cli_executor.rs:299-318 | if the longest matching rules agree on the index, every iteration order chooses the same target |
| OutputCapture.OrderMatters | src/core/cli_executor.rs:299-318 | if they disagree, two orders of the same rules choose differently |
| OutputCapture.DistinctPrefixesAgree | src/core/cli_executor.rs:299-318 | configured prefixes that split into different tokens never disagree |
| OutputCapture.MatchesInWords | src/core/cli_executor.rs:299-312 | a rule matches exactly if its words come first and there is an argument at its index behind them |
| OutputCapture.SplitsAtSpace | src/core/cli_executor.rs:300-300 | a prefix is split at white space, any amount of it being one separator |
| OutputCapture.TargetExactly | src/core/cli_executor.rs:281-331 | the positional target is none exactly if no rule matches, and otherwise the argument, neither claimed by a flag nor starting with `-`, that has as many such arguments before it as the winning rule has words, and its index more |
| OutputCapture.CaseIsIgnored | src/core/cli_executor.rs:242-242 | flags are compared up to the case of ASCII letters only |
| OutputCapture.KindInWords | src/core/cli_executor.rs:235-262 | an argument with a `=` reads as `flag=value` exactly if what stands before its first `=` is a configured flag, and otherwise as a flag exactly if the whole of it is one |
| OutputCapture.KindWithoutEquals | src/core/cli_executor.rs:255-262 | one without a `=` reads as a flag exactly if it is a configured flag |
| OutputCapture.TakenBehindOddRow | src/core/cli_executor.rs:235-275 | in a row of flags every second one is the value of the one before, so an argument is taken as a value exactly if it stands behind an odd row |
| OutputCapture.NextArgumentIsCaptured | src/core/cli_executor.rs:256-271 | the argument behind a flag is captured and gives way to its temp path |
| OutputCapture.InlineValueIsCaptured | src/core/cli_executor.rs:238-252 | of `flag=value` the value is captured and gives way to its temp path behind `flag=` |
| OutputCapture.SlotsAreSound | src/core/cli_executor.rs:217-331 | no argument has two slots; the slots are exactly the values claimed by flags plus the positional target, which no flag claims and which is no flag |
| OutputCapture.UnslottedIsUnchanged | src/core/cli_executor.rs:217-334 | an argument without a slot is left as it was |
| OutputCapture.CaptureMatchesSlot | src/core/cli_executor.rs:244-271 | the k-th capture holds the original path of the k-th slot and the temp path that the slot now holds |
| OutputCapture.RestoreUndoesRewrite | src/core/cli_executor.rs:217-334 | putting each original path back gives the original arguments exactly |
| OutputCapture.ScanArgument | src/core/cli_executor.rs:235-275 | one iteration keeps the scan equal to the left-to-right specification, for `--flag value` and `--flag=value` |
| OutputCapture.RewriteNamedFlags | src/core/cli_executor.rs:231-277 | the in-place loop computes captures, rewritten list and consumed set of the specification, which decides for each argument by what stands before it |
| OutputCapture.CollectPositionals | src/core/cli_executor.rs:284-294 | the positionals are the arguments that no named flag claimed and that do not start with `-` |
| OutputCapture.ChooseTarget | src/core/cli_executor.rs:298-318 | the loop over the rules finds the specified best target |
| OutputCapture.RewritePositional | src/core/cli_executor.rs:281-331 | at most one further slot, the chosen positional, is rewritten and captured |
| OutputCapture.ApplyOutputCaptures | src/core/cli_executor.rs:217-334 | argument count kept, one capture per slot, and the captures can undo the rewriting |
| Expansion.Expand | src/core/auth_generator.rs:424-457 | wherever the loop ends, it ends with the result of the rescanning semantics, or with the name it misses |
| Expansion.OneResult | src/core/auth_generator.rs:424-457 | that result is unique |
| Expansion.HaltsByDollars | src/core/auth_generator.rs:424-457 | if no value contains `$`, the loop ends within as many replacements as the template has `$` |
| Expansion.InertValuesGiveOnePass | src/core/auth_generator.rs:424-457 | if no value can begin or complete a placeholder, the loop on a clean template, one without a `$` directly before a placeholder, ends and equals one pass from left to right |
| Expansion.NoDoubleDollarIsClean | src/core/auth_generator.rs:424-457 | a template without `$${` is clean |
| Expansion.ValueIsLookedInto | src/core/auth_generator.rs:424-457 | any other value is looked into by some clean template |
| Expansion.ExpansionIsOnePass | src/core/auth_generator.rs:424-457 | expansion equals one pass on every clean template, including the missing name it reports, if and only if every value is inert |
| Expansion.TemplateIsOnePassExactlyIfClean | src/core/auth_generator.rs:424-457 | template by template: expansion equals one pass for all inert values if and only if no placeholder of the template has a `$` directly before it |
| Expansion.ExpandVariables | src/core/auth_generator.rs:417-457 | the expansion with context variables first and the keyring second |
| Expansion.ContextIsInserted | src/core/auth_generator.rs:431-444 | between texts without `$`, each of the five context variables gives way to its own field, whatever the keyring holds |
| Expansion.KeyIsInserted | src/core/auth_generator.rs:445-450 | any other name gives way to its keyring value, or is reported missing if it has none |
| Expansion.NoPlaceholderIsUnchanged | src/core/auth_generator.rs:424-430 | a text in which no `${` has a `}` behind it is left as it is |
| Expansion.ResolveEnvValue | src/core/cli_executor.rs:124-139 | the expansion with the keyring alone |
| Expansion.KeyAloneIsInserted | src/core/cli_executor.rs:124-139 | every name gives way to its keyring value, or is reported missing |
| Expansion.PlainValuesExpandInOnePass | src/core/auth_generator.rs:432-450 | if no context or keyring value contains `$`, expansion ends on every template and is one pass on the clean ones |
| ExpansionTermination.SelfReferenceDiverges | src/core/auth_generator.rs:424-457 | a value that names itself behind an inert text keeps the loop going for ever, whatever the name and whatever follows |
| Rewriting.EndsByParts | src/core/auth_generator.rs:424-457 | an inserted value is rewritten first, and the rest of the text only after it is done: the loop fails where the value fails, and otherwise ends as the rest does |
| Rewriting.InsertedEnds | src/core/auth_generator.rs:424-457 | conversely, where the loop ends, it ends on the value within fewer steps, and unless the value fails, on the rest as on the whole |
| References.NamesAreDepthEnough | src/core/auth_generator.rs:424-457 | where references nest to a bounded depth at all, the number of names with values is depth enough |
| References.NestingIsBoundedExactlyIfAcyclic | src/core/auth_generator.rs:424-457 | over finitely many names, every text nests to a bounded depth if and only if no name reaches itself |
| ExpansionTermination.TemplateEndsExactlyIfNotTooDeep | src/core/auth_generator.rs:424-457 | template by template, for finitely many well-formed values: the loop ends if and only if following the placeholders, up to the first name without a value, comes to an end within as many levels as there are names, and it ends with a result if and only if moreover no name is missing |
| ExpansionTermination.CycleHasTemplate | src/core/auth_generator.rs:424-457 | the placeholder of a name that reaches itself, over any number of names, is a template on which the loop does not end |
| ExpansionTermination.LoopEndsExactlyIfAcyclic | src/core/auth_generator.rs:424-457 | for finitely many well-formed values, the loop ends on every clean template if and only if no name reaches itself; reaching is read off the placeholders of the values |
| ExpansionTermination.KeyringExpansionEndsExactlyIfAcyclic | src/core/auth_generator.rs:432-450 | the same for the look-up of the context with a keyring of any size, and for the keyring alone |
| PathTemplate.PercentEncodePathSegment | src/core/http.rs:305-318 | the loop computes the encoding byte by byte |
| PathTemplate.DecodedEncoded | src/core/http.rs:305-318 | percent-decoding recovers the value from its encoding |
| PathTemplate.EncodedIsSafe | src/core/http.rs:303-318 | an encoded value holds only unreserved characters and `%`: no `/`, `?`, `#` or brace |
| PathTemplate.UnreservedStay | src/core/http.rs:305-318 | exactly the letters, the digits and `-`, `.`, `_`, `~` stand for themselves; any other byte becomes `%` and two digits |
| PathTemplate.RenderParse | src/core/http.rs:298-299 | every template is the text of its pieces: text, placeholders, and braces that belong to no placeholder |
| PathTemplate.ReplaceFillsOne | src/core/http.rs:299 | on a tame template, replacing `{key}` fills exactly the placeholders of that name |
| PathTemplate.BalancedIsTame | src/core/http.rs:298-299 | templates without nested or unbalanced braces are tame |
| PathTemplate.FoldIsSimultaneous | src/core/http.rs:284-300 | on a tame template, in every order of the parameters, the fold of replacements is the simultaneous substitution |
| PathTemplate.RejectedExactly | src/core/http.rs:285-295 | a value is rejected if and only if its encoding has two dots in a row, or what that decodes to has a backslash, `?`, `#` or zero byte |
| PathTemplate.OneHoleIsFilled | src/core/http.rs:298-299 | `a{name}b` with a value for `name` becomes `a`, the encoded value, `b`, byte by byte |
| PathTemplate.SubstitutePathParams | src/core/http.rs:280-301 | fails if and only if some value is rejected, in whatever order, naming a rejected one; otherwise no encoded value has two dots in a row, and the result is the fold and, on tame templates with brace-free names, the simultaneous substitution |
| PathTemplate.SubstitutionKeepsSeparators | src/core/http.rs:277-301 | on every template and in every order, no value adds or removes a `/`, `?` or `#` |
| PathTemplate.ArgumentIsUsedExactlyIfItHasAHole | src/core/http.rs:298-299 | an argument makes a difference to the substituted path if and only if the template has a placeholder of its name |
| PathOrder.TameExactlyIfNoFrame | src/core/http.rs:298-299 | a template is tame if and only if no two of its braces that belong to no placeholder enclose a complete placeholder |
| PathOrder.TwoOrdersDiffer | src/core/http.rs:285-300 | for every other template there are accepted arguments and two orders of them that give different paths |
| PathOrder.OrderFreeExactlyIfTame | src/core/http.rs:285-300 | for brace-free names, the path is the same in every order for all accepted arguments if and only if the template is tame |
| PathDots.NoTwoDotsExactlyIfDotsStayApart | src/core/http.rs:285-300 | no accepted arguments put two dots in a row into the path if and only if the template has none and a dot for every placeholder makes none |
| PathDots.PathHasNoTwoDots | src/core/http.rs:285-300 | under that condition the loop makes none on a tame template, in whatever order it takes the arguments |
| PathDots.DotMeetsDot | src/core/http.rs:285-300 | behind a dot of the template, the accepted value `.` does make two dots in a row |
| SchemaResolution.FullIsUnique | src/core/openapi.rs:650-718 | the unbounded resolution does not depend on the bound that shows its chains end |
| SchemaResolution.ResolveIsFull | src/core/openapi.rs:650-718 | from any depth, bounded resolution equals the unbounded one as long as two levels per remaining hop are left |
| SchemaResolution.CutShows | src/core/openapi.rs:655-657 | with one hop more, what stands at the cut shows in the result |
| SchemaResolution.LimitIsFaithfulUpTo15Hops | src/core/openapi.rs:642-718 | the depth limit is unobservable if and only if no chain of references has more than 15 hops, and then the result is the unbounded resolution |
| SchemaResolution.FollowedResolves | src/core/openapi.rs:702-718 | while the depth lasts, a chain of references resolves to what the schema at its end resolves to |
| SchemaResolution.CycleIsAlwaysCut | src/core/openapi.rs:642-718 | chains that reach a cycle of references exceed any bound |
| SchemaResolution.CyclicSchemaIsTruncated | src/core/openapi.rs:655-657 | resolving a cyclic schema ends, with the truncation mark in the result |
| SchemaResolution.SelfReferenceIsCut | src/core/openapi.rs:655-657 | a component that only refers to itself resolves to the truncation mark |
| SchemaResolution.TargetIsComponent | src/core/openapi.rs:702-718 | a reference leads to the component it names, if there is one, and any other nowhere |
| SchemaResolution.BrokenReferenceIsObject | src/core/openapi.rs:702-718 | a reference that leads nowhere stands for a plain object |
| SchemaResolution.TypeByKeyword | src/core/openapi.rs:575-626 | `type`, `enum` and `items` of the JSON schema, for each kind of schema |
| SchemaResolution.GivenHolds | src/core/openapi.rs:582-588 | an enumeration lists exactly its texts, without nulls |
| SchemaResolution.GivenInOrder | src/core/openapi.rs:582-588 | and in order |
| SchemaResolution.DataByKeyword | src/core/openapi.rs:628-637 | `description`, `default` and `example` are there exactly if the schema has them |
| InputSchema.AddParameters | src/core/openapi.rs:431-461 | the loop over path and operation parameters: properties with locations, later ones replacing earlier ones, unresolved references skipped |
| InputSchema.AddBody | src/core/openapi.rs:489-511 | the loop over the body's fields, in any order: each is located in the body; a required body contributes the names its schema requires |
| InputSchema.BuildInputSchema | src/core/openapi.rs:422-537 | the generated schema has exactly the declared properties, required names and body encoding |
| InputSchema.RequiredExactly | src/core/openapi.rs:458-510 | a name is required if and only if some parameter of that name is flagged as required or the body requires it |
| InputSchema.ParameterIsComponent | src/core/openapi.rs:411-419 | a reference to a parameter stands for the component it names, unless that is missing or a reference itself |
| InputSchema.BodyIsComponent | src/core/openapi.rs:721-735 | the same for a request body |
| InputSchema.MediaIsChosen | src/core/openapi.rs:475-484 | JSON is taken if it is offered, else a form, else the first media type; the body is sent as a form exactly in the second case |
| InputSchema.PropertyByKeyword | src/core/openapi.rs:540-570 | the property of a parameter: type and default of its inline schema, or plainly a string; its own description and example before those of the schema; its location and collection format |
| InputSchema.BodyFieldByKeyword | src/core/openapi.rs:500-507 | a field of the body is what its schema resolves to, and only its location is new |
| InputSchema.BodyFieldResolves | src/core/openapi.rs:664-690 | that is the plain part of a schema written inline, and the resolution of a reference |
| InputSchema.RequiredAreDeclared | src/core/openapi.rs:458-461 | required names are properties |
| InputSchema.ResolvesToObject | src/core/openapi.rs:650-718 | a schema, resolved or truncated, is an object whose properties are objects, so each field of a body can carry a location |
| InputSchema.PropsOfLastNamed | src/core/openapi.rs:434-461 | the property of a name is that of the last resolved parameter of the name |
| InputSchema.BodyKeepsItsFields | src/core/openapi.rs:485-510 | a body whose schema is an object, inline or behind up to 15 references, keeps the names of its fields and requires exactly those its schema requires and has, if the body itself is required |
| InputSchema.BodyBehindLongChainIsEmpty | src/core/openapi.rs:485-510 | behind a longer or broken chain the body has no fields |
| InputSchema.EveryPropertyIsLocated | src/core/openapi.rs:422-537 | every property carries a location, that of the last declaration of its name: the body's fields after all parameters |
| ArgumentRouting.MergeDefaults | src/core/http.rs:147-170 | the caller's arguments stay; exactly the missing ones with a default that is not null or empty are added |
| ArgumentRouting.DefaultIsUsable | src/core/http.rs:151-167 | the default that is used is the declared one, if it is neither null nor an empty array or object |
| ArgumentRouting.ClassifyParams | src/core/http.rs:205-275 | `None` exactly if no property has a location; otherwise each argument stands in its slot, with its text or value, and nothing else stands anywhere |
| ArgumentRouting.SentByLocation | src/core/http.rs:234-272 | an argument goes to path, query or header exactly if its property says so, and else to the body |
| ArgumentRouting.ArgumentText | src/core/http.rs:339-347 | a string is sent as it is, numbers and booleans as their text, null as nothing, arrays and objects as JSON |
| ArgumentRouting.PrepareRequest | src/core/http.rs:413-416 | both steps together |
| ArgumentRouting.BucketsPartitionArguments | src/core/http.rs:234-272 | each argument is in exactly one bucket and nothing is lost or invented |
| ArgumentRouting.SentWhereRecorded | src/core/http.rs:234-242 | the bucket read from a generated schema is that of the last declaration of the name |
| ArgumentRouting.ArgumentsGoWhereRecorded | src/core/http.rs:413-416 | from operation to request: if anything is declared, classification succeeds, no given value is overridden, and each argument goes, whole, to the place of the last declaration of its name, an undeclared one to the body |
| ArgumentRouting.ParameterKeepsItsPlace | src/core/openapi.rs:434-507 | an argument is sent where a parameter declares it if and only if the parameter is not a cookie, no field of the body has its name, and the last parameter of that name has the same place |
| ArgumentRouting.ArgumentReachesItsParameter | src/core/http.rs:233-272 | under that condition, and only then, the argument stands whole in the slot of the parameter's own location and nowhere else |
| ArgumentRouting.BodyFieldTakesPathParameter | src/core/openapi.rs:500-507 | a field `id` of the body takes the argument of the path parameter `id` |
| ArgumentRouting.LaterParameterTakesArgument | src/core/openapi.rs:435-457 | a query parameter `id` takes the argument of the path parameter `id` before it |
| ArgumentRouting.CookieIsSentInQuery | src/core/openapi.rs:321-328 | the argument of a cookie parameter goes to the query |
| ArgumentRouting.ApplyQueryArray | src/core/http.rs:350-378 | an array becomes repeated pairs or one pair joined by comma, blank or bar |
| ArgumentRouting.JoinedSplits | src/core/http.rs:363-375 | a joined array splits back into its values at the separators, if no value holds one itself |
| ArgumentRouting.ArraysKeepTheirStyle | src/core/openapi.rs:368-407 | the query pairs of an array parameter are those that its style and `explode` prescribe, for all values, if and only if its schema is written inline and it does not explode a delimited style, or its schema is behind a `$ref` and repeated pairs are prescribed |
| ArgumentRouting.ReferencedArrayLosesItsStyle | src/core/openapi.rs:378-386 | a pipe-delimited parameter whose array schema is a component is sent as repeated pairs |
| ArgumentRouting.ExplodedPipesAreJoined | src/core/openapi.rs:403-404 | an exploded pipe-delimited parameter with an inline array is sent as one joined pair |
| RequestAssembly.ValidateHeaders | src/core/http.rs:128-145 | names a header argument that is on the deny-list or is the provider's own, and finds one if there is one |
| RequestAssembly.DeniedExactly | src/core/http.rs:109-145 | exactly the thirteen listed names, whatever their case, and the provider's own are denied |
| RequestAssembly.ApplyQuery | src/core/http.rs:437-439 | reads under each key as its argument, in whatever order |
| RequestAssembly.ApplyQueryArrays | src/core/http.rs:350-378 | adds behind what a key reads the values of its array in its format, in whatever order |
| RequestAssembly.FillEndpoint | src/core/http.rs:280-301 | the endpoint with the path arguments in UTF-8 put in, or an error that blames a rejected one |
| RequestAssembly.AssembleRequest | src/core/http.rs:418-478 | an error exactly if a header is denied or else a path value rejected, blaming one of them, headers first; otherwise the request that is sent: filled endpoint, what the query reads under every key, headers, and a body, as JSON or form, that is there only for POST, PUT and PATCH and only if it is not empty |
| RequestAssembly.ArgumentStandsWhole | src/core/http.rs:418-478 | from arguments to request: each stands whole in the part it is routed to, a query array in its format, and in no other part |
| RequestAssembly.ArgumentIsSentExactlyIfItHasAPlace | src/core/http.rs:418-478 | of the requests with and without an argument, on a tame endpoint with brace-free names: a server can tell them apart if and only if the argument is a path argument with a placeholder in the endpoint, a query argument other than an empty array in the default format, a header, or a body argument of a POST, PUT or PATCH request |
| RequestAssembly.RefusedExactlyIfSomeArgumentStops | src/core/http.rs:418-422 | a request is refused if and only if one of its arguments is a denied header or a rejected path value |
| RequestAssembly.EmptyArrayIsNotSent | src/core/http.rs:356-361 | an empty array for a query parameter leaves nothing in any request |
| RequestAssembly.MissingPlaceholderIsNotSent | src/core/http.rs:298-299 | nor does an argument for a path parameter where the endpoint has no placeholder |
| RequestAssembly.BodyOfGetIsNotSent | src/core/http.rs:428-441 | nor does an undeclared argument in a GET or DELETE request; in a POST, PUT or PATCH request it does |
| RequestAssembly.HostHeaderStops | src/core/http.rs:111-137 | the argument of a header parameter `Host` stops the request, whatever its value |
| RequestAssembly.ProviderHeaderStops | src/core/http.rs:138-142 | so does that of a header parameter named like the provider's own |
| AuthCaching.AuthCache.constructor | src/core/auth_generator.rs:124-130 | an empty cache |
| AuthCaching.AuthCache.Get | src/core/auth_generator.rs:151-162 | an entry is served only while it is unexpired |
| AuthCaching.AuthCache.Insert | src/core/auth_generator.rs:164-199 | no caching for a zero time to live; otherwise sweep and insert, after which only unexpired entries remain |
| AuthCaching.CacheIsHistory | src/core/auth_generator.rs:151-199 | with a monotone clock, a look-up answers the latest insert for the key that asked for caching, if still unexpired |
| AuthCaching.InsertedIsServed | src/core/auth_generator.rs:151-199 | an insert that asks for caching is served to its own provider, subject and token, an empty token included, until its seconds are over |
| AuthCaching.SweepIsInvisible | src/core/auth_generator.rs:175-185 | no caller can tell whether the cache sweeps |
| AuthCaching.SweptMapIsLiveHistory | src/core/auth_generator.rs:175-185 | right after an insert the map holds exactly the keys that can still be served |
| AuthCaching.ServedToItsOwnerOnly | src/core/auth_generator.rs:103-122 | where no other inserted token has the digest of the caller's, and none the empty digest, a credential is served only to the provider, subject and token it was inserted for, within its seconds |
| Manifests.PushKeepsIndexed | src/core/manifest.rs:1109-1112 | registering a tool keeps the index in bounds, complete and pointing at the latest tool of each name |
| Manifests.FillIsPushAll | src/core/manifest.rs:885-890 | indexing a manifest's tools before the manifest is pushed gives the same registry as registering them one by one |
| Manifests.AddKeepsIndexed | src/core/manifest.rs:885-890 | adding a manifest keeps the index right |
| Manifests.CachedIsIndexed | src/core/manifest.rs:919-960 | so does loading cached providers, which yield to a provider of the same name |
| Manifests.FileManagerIsIndexed | src/core/manifest.rs:1159-1240 | so does each of the three file-manager cases |
| Manifests.FileManagerIsInstalled | src/core/manifest.rs:1159-1240 | after any load there is a file manager with tools: its own if it was declared with any, else the two built-in ones with their scopes, on a public provider if none was declared |
| Manifests.CachedYields | src/core/manifest.rs:919-960 | behind the manifests from files come cached ones, each with a provider name of its own; none is missing |
| Manifests.LoadedInOrder | src/core/manifest.rs:885-890 | the manifests from files, prepared and in order |
| Manifests.RegisteredIsIndexed | src/core/manifest.rs:1083-1114 | so does registering discovered tools |
| Manifests.IndexCountsNames | src/core/manifest.rs:1022-1024 | the indexed names are exactly the listed names |
| Manifests.RegisteredToolIsFound | src/core/manifest.rs:1094-1112 | a discovered tool is found under provider name, colon and tool name, with its description, the scope of that name, and the provider it was registered for; of several of one name in a batch, the last |
| Manifests.RegisteredToolFindsItsProvider | src/core/manifest.rs:1041-1047 | the prefix of a registered name finds its provider if and only if the provider speaks MCP and its name has no `:` |
| Manifests.LoadedRegistryIsScoped | src/core/manifest.rs:870-883 | after any load, every tool of a public provider has a scope, given that cached ones have one |
| Manifests.RegisteredStaysScoped | src/core/manifest.rs:1097-1108 | discovered tools keep that |
| Manifests.Prepare | src/core/manifest.rs:853-883 | the implicit tool of a CLI provider and the automatic scopes |
| Manifests.PreparedTool | src/core/manifest.rs:853-883 | each tool keeps name, description and scope; a tool of a public provider without a scope gets `tool:` and its name; a CLI provider without tools gets one of its own name |
| Manifests.LoadFiles | src/core/manifest.rs:885-890 | the loading loop |
| Manifests.LoadCached | src/core/manifest.rs:919-960 | the loop over cached providers |
| Manifests.ManifestRegistry.Load | src/core/manifest.rs:681-972 | a loaded registry is valid: see GetTool and ToolCount |
| Manifests.ManifestRegistry.RegisterFileManagerProvider | src/core/manifest.rs:1159-1240 | left alone, given the built-in tools, or added |
| Manifests.ManifestRegistry.RegisterMcpTools | src/core/manifest.rs:1083-1114 | an unknown provider changes nothing; otherwise the tools are appended to the first manifest of that name and indexed in order, and the registry stays valid |
| Manifests.ManifestRegistry.GetTool | src/core/manifest.rs:985-990 | the most recently registered tool of the name, with its provider |
| Manifests.ManifestRegistry.ToolCount | src/core/manifest.rs:1022-1024 | the number of distinct names among the listed tools |
| PlanArgs.FilterGlobals | src/cli/call.rs:22-38 | the loop that drops global flags, two words for those with a value |
| PlanArgs.ParseToolArgs | src/cli/call.rs:20-69 | the parsing loop, with its empty-key error |
| PlanArgs.FlagTakesWord | src/cli/call.rs:53-62 | a flag takes the word behind it, as JSON if it is JSON and else as text |
| PlanArgs.BareFlagIsTrue | src/cli/call.rs:57-62 | a flag with no word behind it is true |
| PlanArgs.EmptyKeyIsAnError | src/cli/call.rs:44-66 | dashes alone are an error; a word that no flag takes is passed over |
| PlanArgs.GlobalsAreDropped | src/cli/call.rs:22-38 | the global flags go, two of them with the word behind them |
| PlanArgs.PrintArgs | src/cli/plan.rs:75-82 | prints every argument once, in an arbitrary order |
| PlanArgs.Origin | src/cli/call.rs:43-66 | every pair of a parsed map comes from a flag and the word after it |
| PlanArgs.GoodArgsSuffice | src/cli/plan.rs:75-82 | good keys and values survive printing and parsing in every order |
| PlanArgs.NeedsGoodArgs | src/cli/plan.rs:75-82 | arguments that survive have only good keys and values |
| PlanArgs.RoundTripsExactlyIfGood | src/cli/plan.rs:75-82 | a step's arguments survive printing and parsing if and only if every key is non-empty, does not start with `--` and is not json, verbose, output or format, and every string is not JSON, does not start with `--` and is not `-J`, and every other value reads back as itself |
| PlanArgs.GoodInWords | src/cli/plan.rs:75-82 | what a good key and a good value are, in words alone |
| EdgeKeyring.EdgeDir.AtomicWrite | src/cli/edge.rs:333-345 | the target gets the whole contents; the trail lists every state in between |
| EdgeKeyring.EdgeDir.LoadOrGenerateSessionKey | src/cli/edge.rs:299-327 | an existing key is read, never rewritten; a malformed one is an error |
| EdgeKeyring.EdgeDir.BootstrapKeyring | src/cli/edge.rs:88-116 | succeeds exactly if the item was fetched and an existing key is well-formed; then the keyring holds the item sealed under that key, or under the fresh one, which is stored first; an error changes nothing; its states are those of the bootstrap trail |
| EdgeKeyring.EdgeDir.RotateKeyring | src/cli/edge.rs:118-161 | succeeds exactly if keyring and well-formed key are there and the item was fetched, and then seals it under that key; the first missing thing is the error, which changes nothing; its states are those of the rotation trail |
| EdgeKeyring.WriteIsOldOrNew | src/cli/edge.rs:331-345 | at every crash point of a write, both files are as before or the target is the whole new one |
| EdgeKeyring.BootstrapPointIsSafe | src/cli/edge.rs:88-116 | at every crash point of a bootstrap the keyring, if there, opens with the session key and holds one whole item, and an existing key is unchanged |
| EdgeKeyring.RotatePointIsSafe | src/cli/edge.rs:118-161 | the same for a rotation |
| EdgeKeyring.EveryRunIsSafe | src/cli/edge.rs:88-161 | after any sequence of bootstraps and rotations, each crashing anywhere or completing, the keyring opens with the session key and holds one item that some call fetched or that was there from the start |
| EdgeKeyring.KeyKeptFrom | src/cli/edge.rs:296-311 | once written, the session key never changes in the rest of a run |
| EdgeKeyring.DoneCallStoresItsItem | src/cli/edge.rs:103-107 | a call that completes leaves the item it fetched |
| KeyEncoding.PushDerLength | src/cli/token.rs:302-313 | appends the length octets, casts to a byte included |
| KeyEncoding.WrapEcPublicKeySpki | src/cli/token.rs:271-299 | builds the SubjectPublicKeyInfo of the key |
| KeyEncoding.P256IsWrapped | src/cli/token.rs:271-299 | a point of 65 bytes is wrapped in exactly the 26 octets that RFC 5480 prescribes for P-256 |
| KeyEncoding.LengthIsRead | src/cli/token.rs:302-313 | a definite-length decoder that insists on minimal octets reads back any length below 65536, and any other as its low sixteen bits or not at all |
| KeyEncoding.ReadLengthIsCanonical | src/cli/token.rs:302-313 | it accepts nothing else for such a length: the octets are minimal |
| KeyEncoding.SpkiRoundTrips | src/cli/token.rs:271-299 | the decoder recovers the key from its wrapping if and only if the key has fewer than 65510 bytes, and accepts nothing otherwise |
| KeyEncoding.ReadSpkiIsCanonical | src/cli/token.rs:271-299 | what it accepts for a key of that size is the wrapping of that key |
| KeyEncoding.FormatPem | src/cli/token.rs:259-267 | the loop writes the PEM text in lines of 64 |
| KeyEncoding.PemMarkers | src/cli/token.rs:259-267 | the two marker lines around the text |
| KeyEncoding.LinesOf64 | src/cli/token.rs:259-267 | exactly every 65th character ends a line, and the last one |
| KeyEncoding.CarriageReturnsAreDropped | src/core/jwt.rs:304-310 | a line that ends in carriage return and line feed is stripped like one that ends in a line feed |
| KeyEncoding.StripUndoesPem | src/core/jwt.rs:304-310 | stripping gives back every base64 text exactly, whatever its length |
| KeyEncoding.KeySurvivesPublication | src/core/jwt.rs:304-310 | from raw key through DER, base64 and PEM into the key set and back: the key is recovered if and only if it is short enough for its DER lengths |

## Left out

- SQL text: the WHERE clause is a list of conjuncts with numbered placeholders, evaluated as PostgreSQL does; the rest of the statements is their effect on the tables, and each transaction is one atomic step.
- Row columns that no statement of the modelled members reads (tools, providers, categories, skills, metadata, counters other than one).
- KeyTables.KeyStoreDb.Issue: requires a hash that was never used, because the hash comes from 16 random bytes; the longest time to live is a parameter, and connection errors and the end of the calendar are not modelled.
- The cache library: entries expire 30 s after insertion and may be evicted at any moment, which covers its capacity and eviction policy.
- The reconnect that the LISTEN connection does on its own inside one receive call; losing NOTIFYs is covered by the disconnect step.
- Other writers of `ati_keys` (request counters, blocking): one step that changes a row but not its owner and alias.
- Graceful shutdown of the LISTEN task: `listen_loop` has no path that returns without an error.
- OutputCapture.ApplyOutputCaptures: the k-th temp path is an arbitrary function of k and the original path; how its name is made, and overflow of a configured index near the machine's word size, are not modelled.
- Reading captured files back (`collect_capture_results`): it returns on the first error without visiting later captures, so "always cleans up" does not hold as its comment says.
- Expansion.Expand: requires an input on which the loop ends, because the source has no result otherwise; `HaltsByDollars`, `InertValuesGiveOnePass` and `ExpansionTermination.LoopEndsExactlyIfAcyclic` say when it does.
- ExpansionTermination.LoopEndsExactlyIfAcyclic: covers values that are well-formed templates (every `${` closed, none behind a `$`, no `$` at the end); what a value left open does depends on the text around it.
- PathOrder.OrderFreeExactlyIfTame: for names without braces; a name that holds a brace can match across placeholders.
- PathTemplate.SubstitutePathParams: which of several rejected parameters is named depends on the map's order and is left open; text is a sequence of UTF-8 bytes.
- Number parsing and printing of JSON: a number is its text.
- PlanArgs.RoundTripsExactlyIfGood: takes two laws of JSON text as given for the values among the arguments: one that is no string prints to a word that reads as no string, and a string literal is longer than its string.
- Locked access to the credential cache: each call is one step, as under the source's mutex.
- Loading of manifests before indexing (file system, TOML, OpenAPI fetch, validation errors): the registry starts from parsed manifests; expired or unreadable cache files are not among the cached providers.
- Durability after a power failure: the directory is not synced by the source, so only crashes of the process are modelled; left-over temporary files are allowed, never required to be removed.
- Concurrent bootstraps or rotations on one directory: runs are sequential.
- Failures of single file operations: they stop a call like a crash at that point.
- RequestAssembly.AssembleRequest: the URL and HTTP libraries behind the request builder: dot segments and fragments of the assembled URL, header names or values that HTTP does not allow, the base URL, and the authentication, trace and provider headers added afterwards.
- RequestAssembly.ArgumentIsSentExactlyIfItHasAPlace: for tame endpoints and brace-free path names, where the path does not depend on the order of a hash map; hand-written tools without parameter locations are not part of it.
- HTTP, subprocesses, 1Password, systemd, MCP transport, scopes and rate limits, skills, passthrough and the proxy: calls into the outside, or parts that would only add easy members.
- Cryptography and base64: parameters with the laws that decrypting and decoding undo encrypting and encoding.
