# Smoker: a verified model of the decision core

Smoker is a reverse-proxy web application firewall. Its decisions come from a handful of
stateful machines that one request pipeline composes. This project models those machines and
the pipeline in Dafny and proves what they promise over whole runs.

| module | models |
|---|---|
| `Prelude`, `Lru`, `Text`, `Codec` | shared vocabulary, the bounded least-recently-used cache, byte strings, base64url and decimal int64 |
| `TextTheory`, `CodecTheory` | letter case and UTF-8, and the encodings, against their definitions |
| `Guard`, `GuardTheory` | the flood governor: a weighted token bucket per address, and both proactive checks |
| `Tracker`, `TrackerTheory`, `SessionTheory` | the session tracker: TTL, LRU and a 64-hit memory; what its checks mean in a run |
| `Reputation`, `ReputationTheory` | the clean / greylisted / blocked machine with its durable copy |
| `Signature`, `PathLanguage`, `RequestLines`, `SignatureTheory` | the template compiler; what path templates and raw request lines say, of their text alone |
| `Engine`, `EngineTheory` | matching compiled signatures and the strongest-action scan |
| `ContentCache`, `CacheTheory` | the content cache and the streaming tee |
| `Challenge`, `Redirection` | challenge tokens, proof of work, the session cookie; the redirect after a solved challenge |
| `Body` | how inspection rebuilds a request body |
| `Pipeline` | one request as one step over all of these |
| `PipelineTheory`, `AdmissionTheory`, `StandingTheory`, `FloodTheory`, `VisitorTheory`, `PacingTheory`, `DeliveryTheory` | theorems about runs of the whole pipeline: blocking and restarts, what is let through, flood control, challenges, rate limits, cached answers |

How the model is built:

- Each component has a specification function from the old state to the new state and the answer
  (`Charge`, `Record`, `Lookup`, `Serve`, ...). The objects of the program are classes with the
  program's fields, loops and in-place updates; every method ensures that the new state and its
  result are those of the function. Theorems are proved about the functions, so they hold of the
  objects.
- Time is an integer number of nanoseconds since Go's zero time, read from an explicit clock. A
  request carries two readings: `at`, when it arrives, and `done`, when its response has been
  copied to the client and its pageview is recorded.
- HMAC-SHA256, SHA-256, the regular expressions written in templates, the access-list verdicts,
  the anomaly score and the list of cacheable extensions are arbitrary functions or inputs, so
  every theorem holds for all of them.
- The bounded cache is a map with the recency order of its keys: a lookup that hits and an
  addition make a key the newest, and adding a new key to a full cache drops the oldest. The
  library that implements it is not part of this model.
- A run is a sequence of requests (and, where it says so, restarts). Requests are atomic steps,
  except in `ReputationTheory.EntriesWellFormed` and `CacheTheory`, whose runs interleave lock
  sections, durable writes, and the reads of many streams.

Where code and documentation disagree the model follows the code, and where a promised property
fails of the code its exact condition is proved:

- The repository's README describes the proactive layer as running before the engine; the code
  runs it after (`internal/proxy/proxy.go:262-279`).
- Comments say that rate limits still bind a session that passed a challenge
  (`internal/proxy/proxy.go:340-344`); a challenge rule that matches too outranks them.
  `VisitorTheory.RateLimitUnderGrace` is the exact condition.
- The comment on path compilation mentions a prefix match (`internal/detect/signature.go:132-136`);
  the compiler never emits one.
- The rate bound of the flood governor over an interval of clock readings holds, for given
  readings, exactly when the running clock moves by at most the interval's length between the
  first and the last call that reads a time in it (`GuardTheory.IntervalBoundIff`). Go's own
  readings of the time are monotonic, so only an injected clock can break it.
- A call to the reputation manager without a lookup can show a crash:
  `ReputationTheory.CrashShowsIff` says exactly when. Interleaved durable writes can leave the
  file behind memory: `ReputationTheory.SettledAgreesIff`.
- An unknown action ranks as log-only and is enforced as a block, so the strongest action does not
  always win: `EngineTheory.StrongestEnforcedIff` and `EngineTheory.OrderIrrelevantIff`.
- The redirect after a solved challenge is meant to stay on the site. The path is checked before
  the standard library cleans it up and writes it into the header, and browsers drop tabs from it:
  `Redirection.RedirectOnSiteIff` says exactly when the browser stays.
- A response that is cut short is not recorded as a pageview, so an endpoint rate limit bounds the
  requests that are let through exactly when responses are not cut short:
  `PacingTheory.ForwardsBoundedIff`, with `PacingTheory.LetThroughBound` for whole runs.
- A path template that strips to nothing accepts nothing, and non-ASCII bytes are re-encoded one
  at a time: `SignatureTheory.PathExactIff` says exactly which templates keep their meaning. A path
  whose unclosed hole is followed by ill-formed UTF-8 does not compile; a listed one fails its
  template, one of a raw request is passed over.
- A matcher's part that is none of the known ones is meant to name a header, but the compiler takes
  it in lower case (`internal/detect/signature.go:215-220`) while the view keeps the names as they
  arrive (`internal/proxy/proxy.go:659-662`), and HTTP servers capitalize them:
  `EngineTheory.NamedHeaderReadIff` says when such a part reads anything.
- A request body that fails inside the inspected prefix is forwarded as if it were complete:
  `Body.BuildView`.

## Model

| member | source | states |
|---|---|---|
| Guard.Bucket.Take | internal/protect/protect.go:124-137 | refill, cap and charge of one bucket are the specified step on its contents |
| Guard.Guard.Allow | internal/protect/protect.go:102-138 | the guard's new buckets and its verdict are those of one charge: only the caller's bucket changes, the oldest may be evicted |
| Guard.Guard.Assess | internal/protect/protect.go:85-98 | the anomaly check decides first and charges nothing, then the governor is charged once; the decision has the configured action and code or their defaults |
| Guard.Guard.Obtain | internal/protect/protect.go:118-123 | the bucket a request meets is the stored one or a full one, and becomes the newest |
| Guard.MatchPrefix | internal/protect/protect.go:143-150 | true iff some non-empty prefix begins the path |
| GuardTheory.Isolation | internal/protect/protect.go:70-79 | in an interleaved run each verdict for an address equals the verdict when that address calls alone, if fewer than capacity other addresses call in between |
| GuardTheory.ExactAdmission | internal/protect/protect.go:102-138 | from any levels in which the address has no bucket, a request is admitted iff, counted from every call of the address since its bucket was created, the cost admitted since plus its own cost is at most the burst plus the refill since |
| GuardTheory.RateBound | internal/protect/protect.go:111-137 | from any call to any later point the admitted cost is at most the burst plus the refill over the elapsed clock, for all weights and any clock |
| GuardTheory.StretchBound | internal/protect/protect.go:111-137 | a stretch of calls none of which reads more than T past the clock at its start is admitted at most burst + T*rate, and one window at most twice the burst |
| GuardTheory.IntervalBoundIff | internal/protect/protect.go:111-137 | for given readings, the calls that read a time in an interval of length T are admitted at most the burst plus the refill over T, for all options and paths, iff the running clock moves by at most T from the first of them to the last |
| GuardTheory.ForwardIntervalBounded | internal/protect/protect.go:124-137 | with a clock that does not step back the bound holds over every interval |
| GuardTheory.TokensInRange | internal/protect/protect.go:124-136 | in every run tokens stay between zero and the burst, if they begin there |
| GuardTheory.ChargeInNumbers | internal/protect/protect.go:102-150 | one call in numbers: it finds the stored bucket or a full one, gains the burst per window (a minute if unset) for the time since the last call, and passes iff that holds its cost, the weight on a sensitive prefix and else one, which is taken out |
| Tracker.SessionTracker.Get | internal/session/tracker.go:76-86 | a live record is found and becomes the newest; an expired one is dropped |
| Tracker.SessionTracker.RecordHit | internal/session/tracker.go:88-106 | the new records are those of one recorded pageview: last 64 hits kept, last path and time set, a fresh record if none was live |
| Tracker.SessionTracker.MarkChallengePassed | internal/session/tracker.go:108-121 | the session's record is marked as passed and refreshed, nothing else changes |
| Tracker.SessionTracker.HasPassed | internal/session/tracker.go:123-131 | true iff the session has a live record that passed a challenge |
| Tracker.SessionTracker.Eval | internal/session/tracker.go:135-175 | the stateful gate is: all checks hold, or some check holds, each possibly negated, and nothing without checks; asked only where no check that is reached slices a lone star |
| Tracker.RunCheck | internal/session/tracker.go:177-211 | every check kind is answered as `SessionTheory.EvaluateMeans` says of the run, whenever it does not slice a lone star |
| Tracker.CountWithin | internal/session/tracker.go:213-225 | the loop counts exactly the hits on the path inside the window |
| Tracker.RunGlob | internal/session/tracker.go:228-246 | prefix, suffix, infix and exact patterns match as specified |
| TrackerTheory.BoundedRefinesFull | internal/session/tracker.go:76-121 | in every run the tracker is the unbounded tracker with each history cut to its last 64 hits, with the same sessions in the same recency order |
| TrackerTheory.CountKept | internal/session/tracker.go:213-225 | on a time-ordered history the kept hits count min(64, true count) over all paths, and never more than the truth on one path |
| TrackerTheory.RateLimitAgreesIff | internal/session/tracker.go:186-188 | rate-limit on the kept hits agrees with the full history on all histories iff its value is at most 63 |
| TrackerTheory.MinPriorAgreesIff | internal/session/tracker.go:183-185 | min-prior-pageviews agrees on all histories iff its value is at most 64 |
| TrackerTheory.EndpointAgreesIff | internal/session/tracker.go:189-201 | endpoint-rate-limit on the kept hits agrees with the full history on all histories iff its value always fires: hits on other paths push those that count out |
| TrackerTheory.PathAgreesIff | internal/session/tracker.go:213-225 | on a path the kept hits count as the full history iff no dropped hit on it is in the window |
| TrackerTheory.RunOrdered | internal/session/tracker.go:88-106 | with a clock that does not go back every history is in time order |
| TrackerTheory.EvaluateAgrees | internal/session/tracker.go:135-175 | the gate's verdict in any run is the verdict over the full histories, for checks within the memory bound |
| SessionTheory.RecordTellsLife | internal/session/tracker.go:76-121 | in every run a session has a record iff an update of it is neither expired nor evicted, and the record's flag, last path, last time and hits are those of its updates since it began |
| SessionTheory.NamelessIsForgotten | internal/session/tracker.go:88-111 | nothing is kept for a session without a name |
| SessionTheory.EvaluateMeans | internal/session/tracker.go:135-225 | in every run the matchers fire iff they have checks and all of them, or else one, hold of the updates since the record began: any update, a solved challenge, the number of the last 64 pageviews in the window (of a path), or the last path |
| SessionTheory.SeenBeforeIff | internal/session/tracker.go:179-180 | a sole session-seen-before check fires iff the session has a pageview or solved challenge that it was not evicted after, the last of them at most the TTL ago |
| SessionTheory.GlobMeans | internal/session/tracker.go:228-246 | a star in front, behind or on both sides stands for any text, and a pattern without one for itself |
| TrackerTheory.RecordCovers | internal/session/tracker.go:76-106 | with a window no longer than the TTL, recording keeps every hit of the window in the record, up to the 64-hit bound |
| TrackerTheory.CoveredCount | internal/session/tracker.go:189-201 | while the window holds at most 64 hits, the record counts each path as the full history does |
| Reputation.PruneInPlace | internal/reputation/reputation.go:186-194 | the in-place prune leaves exactly the readings later than the cutoff, in order |
| Reputation.Entry.Punish | internal/reputation/reputation.go:186-208 | a violation is added, the window pruned, and the state, time and expiry set by the threshold |
| Reputation.Manager.constructor | internal/reputation/reputation.go:105-125 | opening loads exactly the unexpired entries of the durable copy |
| Reputation.Manager.Find | internal/reputation/reputation.go:151-168 | an expired entry is deleted from memory and the durable copy and reads as clean; otherwise the state is returned |
| Reputation.Manager.Violate | internal/reputation/reputation.go:170-216 | new memory, durable copy and transition of a violation; nothing happens to a blocked address |
| Reputation.Manager.MarkClean | internal/reputation/reputation.go:218-235 | the entry is replaced by a clean one, in memory and durably |
| Reputation.Manager.Block | internal/reputation/reputation.go:237-252 | the entry is replaced by a blocked one, in memory and durably |
| ReputationTheory.CrashTransparency | internal/reputation/reputation.go:105-149 | restarts inserted anywhere in a disciplined run change no lookup result and no transition |
| ReputationTheory.RunInvariant | internal/reputation/reputation.go:127-168 | memory equals the durable copy up to leftovers that have already expired |
| ReputationTheory.CrashShowsIff | internal/reputation/reputation.go:170-182 | after any disciplined run, a crash just before a call shows in its answer iff the call finds an expired entry that is not clean |
| ReputationTheory.SlidingWindowExact | internal/reputation/reputation.go:186-208 | a violation of an unblocked address blocks it iff its full history has the threshold of violations in the window, restarts included |
| ReputationTheory.SlidingWindowExactIff | internal/reputation/reputation.go:158-208 | that exactness holds in all disciplined runs iff the threshold is at most one or both TTLs cover the window |
| ReputationTheory.EntriesWellFormed | internal/reputation/reputation.go:158-246 | under every interleaving of lock sections, late writes and crashes each entry has expiry = since + TTL, its violations inside its window and below the threshold for its state |
| ReputationTheory.TransitionIsMade | internal/reputation/reputation.go:170-252 | the transition a call reports is the one between the two states, and entry and file are written, except that a violation of a blocked address changes nothing |
| ReputationTheory.SettledAgreesIff | internal/reputation/reputation.go:127-149 | in every interleaving without crashes, once no write is pending, memory and file agree on an address iff the write of it that landed last is, or equals, the one queued last |
| ReputationTheory.PendingIsTheDifference | internal/reputation/reputation.go:210-212 | if writes of one address land in order, the pending writes replayed on the file give memory, in every interleaving without crashes |
| Signature.CompilePath | internal/detect/signature.go:137-169 | the byte-by-byte compiler emits the specified exact or regexp matcher, or fails iff the text of an unclosed hole is not well-formed UTF-8 |
| Signature.CompileMatcher | internal/detect/signature.go:192-213 | compiles iff all its regular expressions do; words are folded, the part and condition defaulted |
| Signature.CompilePaths | internal/detect/signature.go:105-111 | the listed paths compile to their matchers in order, or fail iff one of them does not compile |
| Signature.CompileBlock | internal/detect/signature.go:100-128 | raw request lines are pooled into the block's methods and, if they compile, paths; fails iff a listed path or a matcher does not compile |
| Signature.Compile | internal/detect/signature.go:82-130 | compiles iff every block does; default action, response code and session-matchers are as specified |
| Signature.EmittedValid | internal/detect/signature.go:150-169 | all the emitted text is well-formed UTF-8 iff the text of an unclosed hole is |
| Signature.ParseEmitted | internal/detect/signature.go:150-166 | escaped literals and wildcards parse back to themselves |
| SignatureTheory.MatchIsLanguage | internal/detect/signature.go:146-169 | the anchored regexp accepts a target iff the target fills the template's holes with newline-free strings |
| SignatureTheory.PathMeaning | internal/detect/signature.go:137-190 | what a compiled path accepts, for every template path: relative to the site, itself if it is plain, else its text with newline-free strings for its holes, an open hole as it stands, each byte encoded |
| SignatureTheory.SiteIsStripped | internal/detect/signature.go:171-186 | each of the three placeholders is taken off a path, and a path without one and without a scheme stays |
| SignatureTheory.HostIsStripped | internal/detect/signature.go:178-184 | a scheme and host are taken off, up to the first slash, or leave the root |
| PathLanguage.RelativeIsStripped | internal/detect/signature.go:171-186 | every path is relative to the site in exactly one way, the compiler's |
| PathLanguage.MatchesSpells | internal/detect/signature.go:146-169 | the compiled tokens match a target iff the text spells it, hole by hole |
| PathLanguage.PathCompilesIff | internal/detect/signature.go:154-168 | a path compiles iff no hole is left open before ill-formed UTF-8 |
| RequestLines.RequestLineIff | internal/detect/signature.go:222-235 | a raw request names a method and a path iff its first line that is not blank begins with these two words |
| SignatureTheory.PathExactIff | internal/detect/signature.go:137-169 | the compiled path accepts exactly what the template spells, each character standing for itself, iff the relative path is not empty and is plain or scans as ASCII |
| SignatureTheory.FastPathAgrees | internal/detect/signature.go:142-144 | the exact comparison and the regexp agree on static ASCII paths |
| Engine.MatchMatcher | internal/detect/engine.go:213-267 | the flag-setting loops compute: word group and regexp group hold, then negation |
| Engine.HttpMatch | internal/detect/engine.go:145-188 | true iff some block's methods, paths and matchers hit |
| Engine.DetectionEngine.Inspect | internal/detect/engine.go:73-116 | the loop with its early break returns the specified scan's signature and leaves the tracker as the scan does |
| Engine.ScanStops | internal/detect/engine.go:93-95 | once a ban is found the rest of the list changes nothing |
| EngineTheory.TemplateMeaning | internal/detect/engine.go:145-294 | the compiled signature matches a request iff the template reads on it declaratively: some block with its pooled methods and paths, raw or normalized target, and and/or/negated groups of words in any case or of regexps, in the named part |
| EngineTheory.PartsMean | internal/detect/engine.go:269-294 | a template that asks for one word in one part matches iff the body, the address, the header text, the whole request, or the header with the part's name contains it |
| EngineTheory.NamedHeaderReadIff | internal/detect/engine.go:287-292 | a part that names a header reads that header iff it arrives under a name without capitals, or is empty |
| EngineTheory.DecisionByAction | internal/detect/engine.go:118-135 | a ban is decided if one applies, else a block, else a challenge, else a rate limit; nothing iff nothing applies |
| TextTheory.FoldedSearch | internal/detect/engine.go:213-235 | lowering both texts finds a word in any mix of cases |
| TextTheory.ValidUtf8Iff | internal/detect/signature.go:164-168 | bytes are well-formed iff they encode some sequence of Unicode scalar values (section 3 of RFC 3629) |
| EngineTheory.StrongestWins | internal/detect/engine.go:73-97 | the scan returns the first applicable signature of maximal rank, and at most fetches the session |
| EngineTheory.MoreNeverWeaker | internal/detect/engine.go:84-97 | adding signatures never lowers the rank of the decision |
| EngineTheory.OrderIrrelevant | internal/detect/engine.go:73-135 | over the five named actions the enforced action does not depend on the order of the signatures |
| EngineTheory.StrongestEnforcedIff | internal/detect/engine.go:120-135 | the scan's action, as enforced, is at least as strong as every applicable one iff no unknown action applies, or a ban or block does, or an unknown one comes first among applicable ones that are all unknown or log-only |
| EngineTheory.OrderIrrelevantIff | internal/detect/engine.go:73-135 | what is enforced is the same for every permutation of the signatures (and for every list of the same ones) iff something above log-only applies or all that applies is enforced alike |
| ContentCache.Store.Find | internal/cache/cache.go:48-58 | an expired entry is dropped, a live one returned and touched |
| ContentCache.CachingBody.Read | internal/proxy/proxy.go:556-580 | the client gets the source's bytes and error unchanged; the buffer, flags and cache change as specified |
| CacheTheory.TeeCommits | internal/proxy/proxy.go:556-580 | over any interleaving of streams, lookups and purges a read commits iff it is the first to end a stream that fits the cap, and then stores the whole body |
| CacheTheory.HitIsWhole | internal/cache/cache.go:48-61 | every hit is the whole body of an earlier 200 response under the key that forbade neither storing nor sharing, within its cap and the lifetime that began when its stream ended, with its headers but those of one connection or answer |
| CacheTheory.StorableIff | internal/proxy/proxy.go:502-523 | a response may be kept iff it is a 200, its first Set-Cookie is empty, its first Cache-Control in lower case has none of the three words, its first Vary is blank or accept-encoding in any case between blanks, and a known length is within the cap |
| Challenge.LeadingZeroBits | internal/challenge/challenge.go:233-249 | the nested mask loop counts the leading zero bits |
| Challenge.ZeroBitsMeansSmall | internal/challenge/challenge.go:233-249 | at least k leading zero bits iff the big-endian value is below 2^(8n-k) |
| Challenge.PoWMeansSmallHash | internal/challenge/challenge.go:222-231 | a difficulty is met iff it is not positive, or is at most 256 with a non-empty nonce and a hash below the bound; a solution solves every easier demand |
| Challenge.TokenRoundTrip | internal/challenge/challenge.go:187-211 | a token gives back its difficulty exactly until its expiry second has passed |
| Challenge.AcceptedTokens | internal/challenge/challenge.go:196-218 | accepted tokens are exactly e.b.mac, the mac being the encoded keyed hash of e, a bar and b, with decimal fields and the second e not past |
| Challenge.CookieRoundTrip | internal/proxy/sid.go:26-49 | a minted cookie gives back its id |
| Challenge.AcceptedCookies | internal/proxy/sid.go:39-56 | accepted cookies are exactly those of a non-empty id, a dot and the encoding of the first 16 bytes of its keyed hash |
| Challenge.MacServesOtherIff | internal/proxy/sid.go:39-56 | the mac of a minted cookie is accepted after another id iff both ids' keyed hashes begin with the same 16 bytes |
| Challenge.RotationKeepsKey | internal/proxy/proxy.go:704-728 | a client stays on the key of its address unless it presents a cookie with a valid mac |
| Redirection.RedirectOnSiteIff | internal/challenge/challenge.go:146-162 | the location that is sent, as browsers parse it, stays on the site iff: where the requested path parses, the first segment that the clean-up keeps does not, after tabs, begin with a backslash or end before a further slash; else no slash or backslash follows the first slash and some tabs |
| Redirection.PlainRedirectOnSiteIff | internal/challenge/challenge.go:146-162 | without tabs it stays iff the path does not parse or the first kept segment does not begin with a backslash |
| Redirection.CleanedTwice | internal/challenge/challenge.go:146 | cleaning up a clean path changes nothing more |
| Redirection.CleaningTakesOut | internal/challenge/challenge.go:146 | cleaning takes out a doubled slash, a dot segment, a segment with a double dot after it, and a double dot at the root |
| Redirection.PlainPathIsKept | internal/challenge/challenge.go:146-162 | a requested path without those, and its query, is the redirect's target, unless it names a host outright |
| Redirection.HostsLeadHome | internal/challenge/challenge.go:150-162 | anything but a path, and a path that names a host outright, redirects to the root |
| Redirection.HighBytesArePercentCoded | internal/challenge/challenge.go:146 | a byte above ASCII is sent as a percent sign and its two hexadecimal digits |
| Challenge.KeysStayApart | internal/proxy/proxy.go:704-728 | cookie sessions and address sessions never share a key, and two minted cookies share one iff their random bytes are equal |
| Codec.FormatRoundTrip | internal/challenge/challenge.go:187-203 | decimal formatting and int64 parsing are inverse |
| Codec.EncodingAlphabet | internal/proxy/sid.go:26-35 | unpadded base64url (section 5 of RFC 4648) never contains the separator |
| Codec.EncodingInjective | internal/proxy/sid.go:26-35 | different bytes have different encodings |
| CodecTheory.EncodingKeepsBits | internal/proxy/sid.go:26-35 | three bytes and their four symbols are the same 24-bit number, zeros for what is missing (section 5 of RFC 4648) |
| CodecTheory.ParsesIff | internal/challenge/challenge.go:196-206 | a text parses iff it is a decimal numeral, with or without a sign and leading zeros, of a number that fits 64 bits |
| Body.BuildView | internal/proxy/proxy.go:630-657 | the inspected prefix is what the limit allows; the rebuilt body, buffered or chained to the live source, delivers the client's stream unchanged iff that does not fail inside the prefix |
| Pipeline.Proxy.ServeHTTP | internal/proxy/proxy.go:171-299 | the proxy's four components change, and it answers, as the one-step pipeline function says: access lists, reputation, verify, greylist, engine, guard, cache, backend, record |
| Pipeline.Proxy.ApplyAction | internal/proxy/proxy.go:327-373 | each action's effect on reputation and tracker, and its answer |
| Pipeline.Proxy.HandleVerify | internal/challenge/challenge.go:122-148 | a valid token with enough work cleans the address, marks the session and redirects to the cleaned-up path; anything else is challenged again |
| Pipeline.Proxy.Pass | internal/proxy/proxy.go:281-298 | a cacheable request is served from the cache or forwarded through the tee, then recorded, unless its response is cut short |
| Pipeline.CopyBody | internal/proxy/proxy.go:472-486 | copying a response through the tee leaves the cache as the sequence of reads says |
| PipelineTheory.ServeEffect | internal/proxy/proxy.go:171-373 | all a request can do: nothing if listed; else a lookup, at most one more reputation call for its own address (none if let through), and one tracker update of its own session as its answer says |
| PipelineTheory.BlockedIsAbsorbing | internal/proxy/proxy.go:209-224 | from a block until its expiry, in every run with restarts and whatever others do, the entry is unchanged and the address gets refusals that change nothing, unless whitelisted |
| PipelineTheory.BlockBegins | internal/proxy/proxy.go:354-371 | an address is blocked only by its own refused or challenged request, for exactly the block TTL, durably |
| PipelineTheory.BlockEnds | internal/reputation/reputation.go:158-163 | in every run the first request after a block expires is served as if the address had never been seen |
| StandingTheory.ServeCosts | internal/proxy/proxy.go:209-373 | a request looks its address up and then makes exactly the one reputation call that its decision costs, or none |
| StandingTheory.PipelineIsDisciplined | internal/proxy/proxy.go:209-256 | the reputation calls that a run's own requests and restarts make lead to its store, with a non-decreasing clock and each action after a lookup at the same reading |
| StandingTheory.PipelineIsCoherent | internal/reputation/reputation.go:127-149 | in every pipeline run with restarts memory and durable copy agree up to expired leftovers |
| StandingTheory.BlocksExactly | internal/reputation/reputation.go:186-208 | at any point of a pipeline run a request leaves its address blocked iff a ban is decided, or it costs a violation and the run's own violations of the address in the window reach the threshold |
| AdmissionTheory.LetThroughIff | internal/proxy/proxy.go:171-373 | exactly which requests reach the backend or the cache and which are recorded: whitelisted ones (unrecorded), or admissible ones with nothing decided, log-only (unrecorded), or a challenge that the session already passed; a response cut short is unrecorded |
| AdmissionTheory.TurnedAway | internal/proxy/proxy.go:209-256 | a request that does not get as far as inspection is answered 403 if its address is blocked, with a redirect if it solves a challenge, and else with a fresh challenge |
| AdmissionTheory.PunishedAsDecided | internal/proxy/proxy.go:327-373 | an inspected request costs its address nothing if let through, a block if the decision is a ban, else exactly one violation; a block or a ban answers the decision's code, a rate limit 429, a challenge page is shown iff the decision is a challenge and the session did not pass |
| AdmissionTheory.LoneTemplateDecides | internal/detect/template.go:147-166 | a lone template that reads on a request decides its own action, else a block, or only a log entry if it asks about the session; with its code, else 403 |
| AdmissionTheory.LogOnlyShields | internal/proxy/proxy.go:264-268 | a log-only match forwards the request before the guard runs: no budget is charged and no pageview recorded |
| AdmissionTheory.SameBest | internal/detect/engine.go:73-116 | asking about the session first does not change what the engine decides |
| FloodTheory.ServeCharges | internal/proxy/proxy.go:270-279 | a request is charged to its address's bucket iff it is admissible, no rule matches and the anomaly check does not decide; otherwise no bucket changes |
| FloodTheory.LevelsFollowCalls | internal/protect/protect.go:102-138 | at any point of a pipeline run, restarts included, the buckets are those of the governed calls from the levels they began with |
| FloodTheory.PipelineExactAdmission | internal/protect/protect.go:102-138 | at any point of a pipeline run from any state in which the address has no bucket, a governed request passes iff its cost fits the burst plus refill less what was admitted, counted from every governed call of its address since the bucket was created |
| VisitorTheory.NoChallengeLoop | internal/proxy/proxy.go:225-353 | after a solved challenge no later request of the session outside the verify path is challenged, by greylisting, rule or guard, or costs a violation without a refusal, while it returns within the TTL and is not crowded out |
| VisitorTheory.PassedIsNotChallenged | internal/proxy/proxy.go:232-248 | a request of a session with a live passed record is never answered with a challenge page |
| VisitorTheory.PassedIsRemembered | internal/session/tracker.go:76-131 | the passed mark survives every run in which the session returns within the TTL and fewer than capacity other sessions come between its updates |
| VisitorTheory.SolvedMarks | internal/challenge/challenge.go:139-146 | a solved challenge leaves the address clean and the session passed and newest, and redirects to the cleaned-up path, on the site iff that does not leave it |
| VisitorTheory.SolvedIff | internal/challenge/challenge.go:122-148 | a challenge is solved iff an address that is neither listed nor blocked asks for the verify path with a signed unexpired token and its work |
| VisitorTheory.SessionIs | internal/proxy/proxy.go:704-712 | a request with a valid cookie belongs to its id, whatever its address; any other to its address |
| VisitorTheory.PageCanBeSolved | internal/challenge/challenge.go:72-148 | the token of any challenge page is accepted at the verify endpoint iff it has not expired and the work it asks for is done |
| VisitorTheory.RateLimitUnderGrace | internal/proxy/proxy.go:340-353 | for a passed session a request matched by a rate limit is forwarded iff a challenge rule matches too and no block or ban does |
| PacingTheory.EndpointRateLimit | internal/session/tracker.go:189-201 | under a rule of value v at most v-1 pageviews of one session on one path are recorded in any half-open interval of its window's length: in every run without restarts in which the window fits the session TTL, the session is not crowded out of the tracker and has at most 64 pageviews in a window, and no challenge rule matches the same requests |
| PacingTheory.LetThroughBound | internal/proxy/proxy.go:264-298 | in such runs the requests let through in such an interval are at most v-1 and those that leave no pageview |
| PacingTheory.AccountableBound | internal/proxy/proxy.go:264-298 | they are at most v-1 where none of them is cut short, whitelisted or only logged |
| PacingTheory.ForwardsBoundedIff | internal/proxy/proxy.go:190-198 | how often an otherwise unhindered request, repeated at one instant by a new session, is let through is bounded by v-1 iff its response is not cut short |
| PacingTheory.LimitIsExact | internal/session/tracker.go:189-201 | the rule applies iff the session's full history has v-1 pageviews of the path in the window |
| PacingTheory.LimitStops | internal/detect/engine.go:120-135 | a rate limit that applies stops the request even where a log-only rule applies, if no challenge rule matches |
| PacingTheory.RecordedIsUnmatched | internal/proxy/proxy.go:264-298 | without a challenge rule a recorded pageview is a request that no signature matched |
| PacingTheory.RunCovers | internal/session/tracker.go:76-121 | over pipeline runs the session's record covers its full history of pageviews |
| DeliveryTheory.DrainFollows | internal/proxy/proxy.go:556-580 | copying a body through the tee stores exactly the bytes up to its first end of stream, if they fit, and otherwise nothing |
| DeliveryTheory.HitsComeWhole | internal/proxy/proxy.go:281-325 | in every pipeline run a cache answer is the whole response to an earlier GET of a cacheable path without a range, with the same key, that forbade neither storing nor sharing; alive, with its age in seconds, and without a cookie |
| DeliveryTheory.MissIsStoredIff | internal/proxy/proxy.go:472-523 | a miss that nothing stands against is stored iff its response may be kept and is read to its end within the cap, and then as it was |
| DeliveryTheory.StoredIsServed | internal/cache/cache.go:48-76 | what was stored answers the next eligible request with the key until its lifetime is over, with its age |

## Left out

- Token arithmetic uses reals: float64 rounding in `internal/protect/protect.go:103-136` is not modelled, nor is the saturation of time differences.
- Guard.Guard.Assess: the anomaly score is an input; its word lists and weights (`internal/protect/protect.go:178-272`) add up to a number that is only compared with a threshold.
- Reputation.Manager.Violate: the transition leaves out the address, the reason and the change callback; database writes are taken to succeed and the JSON codec to be faithful.
- Reputation.Entry.Punish: the slice of violations is a value; that a returned snapshot can share its backing array is not modelled.
- Engine.DetectionEngine.Inspect: a last-path pattern that is a lone star panics on a record whose last path is not a star; the tracker excludes exactly the checks that do, the engine and the pipeline exclude signatures with such a pattern (`internal/session/tracker.go:237-238`).
- Signature.CompilePath: strings are byte strings; a character that is not a byte stands for itself.
- Signature.Compile: metadata of templates, template loading and path normalization (the normalized path is an input) are not modelled; case folding and white space are ASCII.
- Engine.DetectionEngine.Inspect: an engine without a session evaluator, and the incident record, are left out; the header text is given, so its map order does not matter.
- Pipeline.Proxy.ServeHTTP: panics of the inspection and fail-open, logging, request ids, page rendering, response compression, backend choice and reloading of the configuration are left out; minting a session cookie is taken to succeed.
- Pipeline.Proxy.ServeHTTP: all clock readings of a request are its arrival, except those of the recorded pageview and the stored response, which are its end; requests are atomic.
- DeliveryTheory.HitsComeWhole: the cache key leaves out Accept-Encoding although a response that varies on it may be stored; that the backend does not vary on it (section 4.1 of RFC 9111) is not stated.
- PacingTheory.EndpointRateLimit: it speaks of the rule whose sole check is not negated and names no path of its own.
- Redirection.RedirectOnSiteIff: which texts the standard library parses as URLs is left open; its clean-up of rooted paths and its writing of the header are modelled from their documentation, under HTTP/1.1 (newlines become spaces, blanks at the end are not trimmed).
- SignatureTheory.PathMeaning: the text of an unclosed hole is compared byte by byte; Go's regexp matches a U+FFFD in it to any ill-formed byte as well.
- SignatureTheory.PathExactIff: the same holds of its condition for such texts with a U+FFFD.
- Challenge.TokenRoundTrip: the comparison of macs in constant time is an equality.
- That a copy cut short ends the request is the standard library's reverse proxy under an HTTP server (it panics, and `internal/proxy/proxy.go:190-198` panics again); the library is not part of this model.
- Network, TLS, firewall, bootstrap, configuration parsing and file watching are outside the decision core.
