# Despatch: verified models of the mail core

Despatch is a webmail control plane. This project models the parts of it that decide something
difficult, in Dafny, and proves what those parts promise:

- **Mail rules to Sieve.** `MailRules`, `MailRulesCompiler` (the compiler as it is written),
  `Sieve` (the tokens and grammar of section 8 of RFC 5228, its base commands and tests, and an
  interpreter), `SieveGrammar` (parsing and printing are inverse), `SieveLexing`, `MailRulesProof`,
  `MailRulesTheorems`, `MailRulesNames`, `MailRulesMeaning`, `MailRulesNoise`, `MailRulesFields`,
  `SieveLaws`. The compiled text parses to the intended commands and performs the action trace of the
  rules, down to the fields of a rule as its user wrote them.
- **Conversation threading.** `Subject`, `SubjectConfluence`, `SubjectForms`, `MessageIds`,
  `ConversationIndex`, `Threading`, `ThreadHints`, `ThreadViews`. Reply chains keep one thread id, the list view and the full view agree
  under an exact condition, subject normalisation does not depend on the order of its rewrites.
- **Caches.** `SingleFlight` and `ReadinessProbe` are transition systems, one event per locked
  region, with invariants over every interleaving. `MailboxListCache` is the mutable object with its
  array copies, and `CacheRefinement` relates it to the protocol; `ProbeCache` does both for the probe.
  `ThreadCacheKeys` is the key format and invalidation by login.
- **Scans and lists.** `ThreadReach`, `ThreadScan`, `Triage`, `TriageFilters`, `LiveListing`, over the
  whole-list specifications in `Lists` and `Ordering`.
- **Mailbox roles and the drain to trash.** `Mailboxes`, `RoleLaws`, `SpecialMailboxes`,
  `TrashRoles`, `DrainToTrash`, `DrainEnds`, `MailboxDeletion`.
- **Rate limiter.** `Limiter`, `LimiterBound`.
- **Codecs.** `Base64`, `Base64Lines`, `Ids`.
- **Reconciliation and regrouping.** `ReplyFunnels`, `FunnelConvergence`, `FunnelLaws`,
  `FunnelStore`, `FunnelSync`; `ContactsCSV`, `ContactsRoundTrip`, `ContactKeys`.

`Text` holds the string functions the source takes from Go's library. `dafny verify dfyconfig.toml`
checks everything.

SHA-256, address parsing, header-word decoding, the triage decoration of messages and the identity
of a sender are parameters. The clock is an integer of nanoseconds passed to each call. Strings that
the source treats as bytes (ids, base64) are sequences of bytes; all others are sequences of
characters.

What the models show that the code or its comments do not say:

- A rule name is written into the script behind a comment sign as it is. A name does no harm in any
  rule if and only if its later lines are white space and comments (`MailRulesNames.NameExact`). Whole
  commands on later lines are performed in front of the rule: `discard;` on every message, whether the
  rule fires or not, and `stop;` keeps that rule and all behind it from doing anything
  (`MailRulesNoise.CompilerNamed`, `MailRulesNoise.NameDiscards`, `MailRulesNoise.NameStops`). A later
  line that opens a comment can hide its rule from a script that is still read
  (`MailRulesNames.CommentHidesRule`).
- The list view does not fetch Conversation-Index. A message whose only index is in that field has two
  thread ids, whatever else it carries; a reply has one id in both views exactly when it does not
  (`ThreadViews.SplitViewsDiffer`, `ThreadViews.ViewsAgreeExactly`). The first message of a mailing-list
  conversation has two as well, since the list view passes List-Id over (`ThreadViews.ListMailSplits`).
- The scan of a thread reports truncation for a mailbox of 451 to 500 messages it passes, although it
  saw all of them (`ThreadScan.SpuriousTruncation`).
- The rate limiter's sweep is invisible exactly when no window is longer than three times another
  plus a tick (`Limiter.GCInvisibleExactly`). The one-minute and ten-minute limits used together
  (internal/api/router.go:272-274) are outside that: with a limit of one, four calls get through in
  one ten-minute window, and that is the most (`LimiterBound.FourInOneWindow`,
  `LimiterBound.BoundByPace`).
- A redirect rule of a reply funnel that somebody gave a further condition counts as up to date and
  keeps that condition, so it no longer catches all mail of its account
  (`FunnelConvergence.SoundRuleCovers`).
- An account name that begins with NUL makes a scoped id unrecognisable as one, and normalising it
  scopes it again (`Ids.ScopeRoundTrip`, `Ids.NormalizeIdempotent`).
- A login that begins with another login and a NUL is invalidated with it
  (`ThreadCacheKeys.InvalidationExact`).
- A Thread-Index whose base64 text happens to be 44 or more hexadecimal digits is read as
  hexadecimal (`ConversationIndex.RootOfEncoding`).
- A mailbox that may be deleted can be the one its messages are moved to, and then deleting it never
  ends. This happens exactly when no mailbox ends with the role of trash and the first trash-like
  name belongs to a mailbox whose own role was given to another name (`TrashRoles.DeletableTrashExactly`,
  `MailboxDeletion.DeletionEndsExactly`). A choice of trash that names no mailbox is enough
  (`TrashRoles.StaleChoice`, `MailboxDeletion.StaleDrainRuns`).

## Model

| member | source | states |
|---|---|---|
| `MailRulesCompiler.CompileConditionFragments` | internal/api/router_mail_rules.go:120-139 | The loop-free appends give the texts of exactly the non-blank trimmed conditions, in the order from, domain, to, subject, body. |
| `MailRulesCompiler.CompileActionFragments` | internal/api/router_mail_rules.go:141-167 | Fails exactly when the rule names a role that no usable mailbox holds, with the error for that role; otherwise gives move, mark-read, redirect and stop in that order. |
| `MailRulesCompiler.ListRequires` | internal/api/router_mail_rules.go:211-216 | The wanted capabilities in the fixed order. |
| `MailRulesCompiler.CompileManagedMailRules` | internal/api/router_mail_rules.go:169-235 | The compiling loop equals the script specified over the whole rule list, or the error of the first failing rule. |
| `SieveLexing.LexQuote` | internal/api/router_mail_rules.go:102-105 | Escaping and lexing are inverse: any string, quoted, lexes to that string and what follows it. |
| `SieveGrammar.ParseTreesOf` | internal/api/router_mail_rules.go:208-235 | Printed commands, and then any tokens, parse to those commands and what the tokens give: the grammar reads what is printed. |
| `SieveGrammar.TreesPrint` | internal/api/router_mail_rules.go:208-235 | Tokens that the grammar accepts are the printed form of what it reads: a script determines its tokens. |
| `SieveLexing.LexBreak` | internal/api/router_mail_rules.go:208 | Whole lines of escaped text are lexed alone, unless they leave a comment or a string open; text that is no token spoils what follows; lines give no token exactly when they are white space and comments. |
| `MailRulesTheorems.ScriptParsesBack` | internal/api/router_mail_rules.go:169-235 | Printer and parser are inverse: for quiet names the emitted text parses to the require command and one conditional per emitted rule, whatever the keys, mailboxes and addresses hold. |
| `MailRulesTheorems.OneLineNamesParseBack` | internal/api/router_mail_rules.go:169-235 | The same for names on one line. |
| `MailRulesNames.NamesExact` | internal/api/router_mail_rules.go:208 | For every rule list whose names leave no comment or string open, the emitted text parses under the whole grammar to the intended commands if and only if the later lines of every emitted name are white space and comments. |
| `MailRulesNames.NameExact` | internal/api/router_mail_rules.go:208 | For every name at all: the script is read as meant, whatever rule carries the name, if and only if the name's later lines are white space and comments. |
| `MailRulesNames.CommentHidesRule` | internal/api/router_mail_rules.go:208 | Two names, the first ending in the opening of a comment and the second the closing, give a script that is read, without the first rule. |
| `MailRulesProof.LexBlock` | internal/api/router_mail_rules.go:208 | A block is lexed as the tokens its name leaves outside the comment, then the tokens of its test and actions; a name that leaves something open swallows the block until it is closed. |
| `MailRulesTheorems.CapabilitiesExact` | internal/api/router_mail_rules.go:188-223 | The require list has no repetition and holds exactly the needed capabilities, or `fileinto` alone when none are needed. |
| `MailRulesMeaning.EvalExpression` | internal/api/router_mail_rules.go:120-139 | The compiled test holds of a message exactly when the rule fires, in "any" and in "all" mode. |
| `MailRulesMeaning.RunBlock` | internal/api/router_mail_rules.go:141-167 | The compiled block performs the rule's effects in order and stops exactly when the rule says so. |
| `MailRulesMeaning.RunBlocks` | internal/api/router_mail_rules.go:169-235 | Running the blocks of all emitted rules gives the trace of applying all rules in order, a fired stop ending the run. |
| `MailRulesMeaning.FailureExact` | internal/api/router_mail_rules.go:107-118 | A first failing rule exists exactly when some enabled rule with a condition names a role with no mailbox. |
| `MailRulesMeaning.CompilerCorrect` | internal/api/router_mail_rules.go:107-235 | For every rule list, mailbox list and message: compilation fails exactly in that case, and otherwise, for quiet names, the parsed script performs the action trace of the rules applied directly. |
| `MailRulesNoise.CompilerNamed` | internal/api/router_mail_rules.go:107-235 | The same for all names that leave whole commands: the script performs the action trace of the rules with those commands, each in front of its rule. |
| `MailRulesNoise.NamedParse` | internal/api/router_mail_rules.go:208 | What is parsed then: the commands a name leaves and its block, rule by rule. |
| `MailRulesNoise.QuietRulesApply` | internal/api/router_mail_rules.go:208 | With quiet names that trace is the trace of the rules applied directly. |
| `MailRulesNoise.ConditionalRuns` | internal/api/router_mail_rules.go:208 | A conditional that a name leaves does what its branch does, and then the commands behind it follow. |
| `MailRulesNoise.NameDiscards` | internal/api/router_mail_rules.go:208 | A first rule whose name has `discard;` on its second line: the script begins with discarding, on every message and whether the rule fires or not. |
| `MailRulesNoise.NameStops` | internal/api/router_mail_rules.go:208 | One with `stop;` there: no rule does anything. |
| `MailRulesNoise.BracketNameIsQuiet` | internal/api/router_mail_rules.go:208 | A bracket comment on the second line of a name is quiet. |
| `MailRulesMeaning.RequireExact` | internal/api/router_mail_rules.go:188-227 | The parsed script requires, once each, exactly the capabilities its other commands use. |
| `MailRulesFields.ConditionsAsWritten` | internal/api/router_mail_rules.go:39-47 | Whatever white space surrounds the fields of the conditions, and whatever outer dots and capitals the domain has, trimming gives each field back in its own place. |
| `MailRulesFields.CleanStays` | internal/api/router_mail_rules.go:39-47 | Conditions without any of that stay as they are. |
| `MailRulesFields.FiresAsAsked` | internal/api/router_mail_rules.go:120-139 | A rule fires exactly when it is enabled and the message is what its fields ask for: each key against its own part of the message, one or all of them by the match mode. |
| `MailRulesFields.ActionsAsWritten` | internal/api/router_mail_rules.go:49-57 | The same two laws for the actions, with capitals of the role. |
| `MailRulesFields.RoleMailboxNamed` | internal/api/router_mail_rules.go:107-118 | The mailbox of a role is the first that goes by it, by its own role or else by its name. |
| `MailRulesFields.EffectsAsAsked` | internal/api/router_mail_rules.go:141-167 | What a firing rule does, over its fields: file, mark, redirect, in that order. |
| `MailRulesFields.FailsAsAsked` | internal/api/router_mail_rules.go:141-154 | A rule fails exactly when it is enabled, has a condition, names no mailbox and asks for a role of which no mailbox has a name. |
| `MailRulesFields.ScriptAsAsked` | internal/api/router_mail_rules.go:107-235 | The compiled script of one rule does to every message what the fields ask for. |
| `SieveLaws.LexMultiLine` | internal/api/router_mail_rules.go:208 | Lines written as a multi-line string are lexed to those lines. |
| `Subject.NormalizeThreadSubject` | internal/mail/threading.go:46-59 | The rewrite loop terminates and computes the normal form. |
| `Subject.PassShortens` | internal/mail/threading.go:48-57 | A pass that changes the string makes it shorter. |
| `SubjectConfluence.StepsCommute` | internal/mail/threading.go:28-30 | Removing a tag or marker in front and removing a trailer behind commute, on every trimmed string. |
| `SubjectConfluence.SettleIsForm` | internal/mail/threading.go:46-59 | The loop of passes ends in the form reached by single steps in any order. |
| `SubjectConfluence.MarkerInvisible` | internal/mail/threading.go:28-29 | Prepending a recognised marker or a 1 to 40 character list tag does not change the normal form. |
| `SubjectConfluence.TrailerInvisible` | internal/mail/threading.go:30 | Appending a forward trailer does not change the normal form. |
| `SubjectConfluence.SubjectConfluent` | internal/mail/threading.go:46-59 | Any number of markers and tags in front and trailers behind leave the normal form as it was. |
| `SubjectForms.FormKeepsText` | internal/mail/threading.go:46-59 | For every subject, the settled string is an unbroken piece of it but for case, and the form is single-spaced with the same words and visible characters in order. |
| `SubjectForms.FieldsOfJoin` | internal/mail/threading.go:57 | Words joined by spaces are read back. |
| `SubjectForms.PlainIsForm` | internal/mail/threading.go:46-59 | A lower-case, single-spaced subject with no tag, marker or trailer is its own form. |
| `SubjectForms.DressedForms` | internal/mail/threading.go:46-59 | With any markers, tags and trailers around it, its form is that subject; so two of them have one form if and only if they are equal. |
| `SubjectForms.MarkersExact` | internal/mail/threading.go:28 | Text before a colon is a marker if and only if it is one of the nine words, with blanks and a count as allowed. |
| `SubjectForms.FoldsExactly` | internal/mail/threading.go:28 | A letter of a marker matches itself, its capital, and for s the long s. |
| `SubjectForms.TagsExact` | internal/mail/threading.go:29 | A bracket is a tag if and only if it holds 1 to 40 characters and no bracket. |
| `Text.LowerMeans` | internal/mail/threading.go:47 | Lower-casing maps the 26 capitals to the small letters and nothing else. |
| `MessageIds.NormalizeMessageIDHeaders` | internal/mail/threading.go:260-275 | The loop gives the distinct non-blank normal forms in order of first occurrence. |
| `MessageIds.FormatReferencesHeader` | internal/mail/imap_smtp.go:935-957 | The loop gives the formatted ids, of ids equal but for case the first, joined by spaces. |
| `MessageIds.NormalizeWellFormed` | internal/mail/threading.go:253-258 | A bare well-formed id normalises to its lower-case form. |
| `MessageIds.NormalizeBracketed` | internal/mail/threading.go:253-258 | So does a well-formed id in angle brackets. |
| `MessageIds.FindAllFormatted` | internal/mail/threading.go:277-283 | The tokens found in a formatted list are the formatted ids. |
| `MessageIds.FindAllBare` | internal/mail/threading.go:277-283 | Bare ids set apart by commas or any white space are found. |
| `MessageIds.NormalizeGivesNormal` | internal/mail/threading.go:260-275 | Values whose normal forms are well-formed normalise to a list of distinct, lower-case, well-formed ids. |
| `MessageIds.NormalizeNormal` | internal/mail/threading.go:260-275 | Such a list is left alone by normalising, bare or in brackets. |
| `Threading.HeadersSurvive` | internal/mail/imap_smtp.go:1146-1155 | Reply headers written out and parsed again are what they were. |
| `Threading.FormatBracketed` | internal/mail/imap_smtp.go:925-933 | An id is written alike with and without its brackets. |
| `Threading.BuildIsNormal` | internal/mail/threading.go:293-305 | Reply headers name the parent, and list its ancestors (its references, or else its In-Reply-To) in order and then its own id unless it is there. |
| `Threading.ReplyIsGood` | internal/mail/threading.go:293-305 | A reply sent and received has well-formed ids, answers its parent, and refers to all the ancestors of its parent in order and then to the parent. |
| `Threading.ChainKeepsThread` | internal/mail/threading.go:203-228 | For every chain of replies, each reply has the thread id of the first reference of the root. |
| `Threading.ChainReferences` | internal/mail/threading.go:293-305 | For every chain without repeated ids, the last reply refers to the ancestors of the root, the root, and every reply before it, in order. |
| `Threading.RootSharesThread` | internal/mail/threading.go:203-228 | The root has that thread id exactly when it has references or an In-Reply-To, or its subject does not speak for it. |
| `ThreadHints.PlainIsNoReply` | internal/mail/threading.go:61-63 | A plain subject looks like no reply. |
| `ThreadHints.MarkedIsReply` | internal/mail/threading.go:61-63 | A subject behind a marker does. |
| `ThreadHints.ForwardedIsReply` | internal/mail/threading.go:61-63 | So does a subject in front of a forward trailer. |
| `ThreadHints.HintKinds` | internal/mail/threading.go:219-222 | Without a topic, a plain subject speaks for a message if and only if it carries a list. |
| `ThreadHints.TopicSpeaks` | internal/mail/threading.go:219-222 | A topic that says something speaks before the subject. |
| `ThreadHints.HintsMeet` | internal/mail/threading.go:185-201 | Hint threads are equal if and only if the forms of the subjects, the participants and the lists agree, for participants and lists without the separators. |
| `ConversationIndex.RootOfEncoding` | internal/mail/threading.go:143-164 | A value of at least 22 bytes in any of the four base64 forms has its first 22 bytes as root exactly when its text is not 44 or more hexadecimal digits of even length. |
| `ConversationIndex.ZeroesMisread` | internal/mail/threading.go:148-150 | 33 zero bytes are such a text: their root is another. |
| `ConversationIndex.SameRoot` | internal/mail/threading.go:143-164 | Values extending one root agree, whatever their forms. |
| `ConversationIndex.FormsAgree` | internal/mail/threading.go:151-162 | Every form that accepts an encoded text reads the same bytes from it. |
| `ConversationIndex.RootTextIdempotent` | internal/mail/threading.go:143-164 | Normalising a root again changes nothing. |
| `ConversationIndex.RootLength` | internal/mail/threading.go:148-162 | A root is 44 hexadecimal digits, or there is none. |
| `ThreadViews.RootIdempotent` | internal/mail/threading.go:143-164 | The same for header text with white space. |
| `ThreadViews.FirstTokenSpeaks` | internal/mail/threading.go:253-258 | A header value normalises as its first token does. |
| `ThreadViews.AgreeByIndex` | internal/mail/imap_smtp.go:1294-1314 | With a Thread-Index that has a root both views give the id of the root. |
| `ThreadViews.AgreeByReference` | internal/mail/imap_smtp.go:1294-1314 | With no root in either index field and a well-formed first reference both views give its thread id, whatever In-Reply-To holds. |
| `ThreadViews.AgreeByReply` | internal/mail/threading.go:311-335 | Without root and references, a well-formed In-Reply-To gives both views its thread id. |
| `ThreadViews.SplitViewsDiffer` | internal/mail/imap_smtp.go:350-355 | A message with a blank Thread-Index and a Conversation-Index that has a root gets two different ids, whatever else it carries. |
| `ThreadViews.ViewsAgreeExactly` | internal/mail/imap_smtp.go:1294-1314 | On a message with a Thread-Index, a well-formed first reference or a well-formed In-Reply-To the views agree if and only if Thread-Index is not blank or Conversation-Index has no root. |
| `ThreadViews.ConversationIndexSplits` | internal/mail/imap_smtp.go:350-355 | A reply with 44 letters A as Conversation-Index is such a message. |
| `ThreadViews.FreshViewsExactly` | internal/mail/threading.go:203-228 | On a message without root and parent the views agree if and only if it has an id and its subject speaks for it in both views, to the same thread id, or in neither. |
| `ThreadViews.ListMailSplits` | internal/mail/imap_smtp.go:1294-1314 | A message with a List-Id and a subject that is no reply, without root and parent, gets two different ids. |
| `ThreadViews.ListTopic` | internal/mail/imap_smtp.go:1306-1313 | In the list view a Thread-Topic stands for the subject. |
| `ThreadViews.FullTopic` | internal/mail/imap_smtp.go:1136-1139 | In the full view a Conversation-Topic stands in for a missing Thread-Topic, and only then. |
| `ThreadViews.SubjectThreads` | internal/mail/threading.go:241-251 | Messages without ids meet exactly when the forms of their subjects agree, or for want of a subject their senders. |
| `ThreadViews.ReplyViews` | internal/mail/imap_smtp.go:1136-1155 | A reply on the wire gets, from both views, the thread id of its parent's conversation. |
| `SingleFlight.AlwaysInv` | internal/api/mail_cache.go:101-208 | Every interleaving keeps the invariant tying flights, the in-flight table, cached items and callers together. |
| `SingleFlight.OneFetchPerKey` | internal/api/mail_cache.go:108-140 | In every interleaving a key has at most one fetch running, channels close once and after their result, no waiter is abandoned, and joined callers got the leader's value and error. |
| `SingleFlight.ClosesOnce` | internal/api/mail_cache.go:124-139 | Closing never meets a closed channel. |
| `SingleFlight.HitsAreFresh` | internal/api/mail_cache.go:105-112 | Errors are never cached; a hit at time t comes from a get begun after t - TTL and published after the last invalidation before the hit. |
| `MailboxListCache.Cache.Enter` | internal/api/mail_cache.go:101-122 | The first locked region: a fresh copy on a hit, otherwise join or lead, the cache unchanged. |
| `MailboxListCache.Cache.Settle` | internal/api/mail_cache.go:124-141 | The second locked region: separate copies for waiters, cache and caller; cached only without error; removed from the in-flight table and marked done. |
| `MailboxListCache.Cache.Invalidate` | internal/api/mail_cache.go:143-151 | Removes exactly that key; a blank login removes nothing. |
| `MailboxListCache.CloneMailboxes` | internal/api/mail_cache.go:297-304 | A new array with the same contents. |
| `MailboxListCache.CallerWrites` | internal/api/mail_cache.go:105-141 | Writing into a list that is not the cache's own leaves the cache and all recorded results as they were. |
| `CacheRefinement.SettleWriteEnter` | internal/api/mail_cache.go:105-141 | A leader that writes into the list it got, and asks again, gets the list as it was fetched; so do those who waited. |
| `CacheRefinement.EnterWriteEnter` | internal/api/mail_cache.go:105-111 | What is written into one hit does not show in the next. |
| `CacheRefinement.EnterRefines` | internal/api/mail_cache.go:105-122 | The first locked region of the object is the protocol's step: related states go to related states, and hit, leader or waiter is answered alike. |
| `CacheRefinement.SettleRefines` | internal/api/mail_cache.go:124-141 | So is the second, for every caller the protocol has as leader. |
| `CacheRefinement.InvalidateRefines` | internal/api/mail_cache.go:143-151 | So is invalidation. |
| `ReadinessProbe.ProbeSafe` | internal/api/mail_cache.go:216-261 | In every interleaving a channel is in flight exactly while one refresher is active on it, other channels were closed exactly once, and nobody waits on an open channel once there is a result. |
| `ReadinessProbe.ProbeSteps` | internal/api/mail_cache.go:263-276 | The guard of refreshAsync always succeeds, no closed channel is closed, and a result is never lost. |
| `ProbeCache.Cache.Snapshot` | internal/api/mail_cache.go:216-261 | The first locked region on the fields is the protocol step: return, wait or refresh, and a background refresh exactly when the result is stale and none is running. |
| `ProbeCache.Cache.FinishRefresh` | internal/api/mail_cache.go:245-253 | So is the last region of a refreshing caller. |
| `ProbeCache.Cache.FinishBackground` | internal/api/mail_cache.go:263-276 | And the region of refreshAsync. |
| `ProbeCache.Cache.ReadAfterWait` | internal/api/mail_cache.go:236-247 | And what a caller reads after waiting. |
| `ThreadCacheKeys.ThreadCache.InvalidateMailLogin` | internal/api/mail_cache.go:195-208 | The deleting loop removes exactly the keys that begin with the login, none for a blank login. |
| `ThreadCacheKeys.InvalidationExact` | internal/api/mail_cache.go:195-208 | A request's key is removed by a login's invalidation exactly when the logins are the same, if and only if the request's login does not begin with the other and a NUL. |
| `ThreadCacheKeys.InvalidationTakesMore` | internal/api/mail_cache.go:195-208 | Invalidating `x` removes the keys of the login `x`, NUL, `y`. |
| `ThreadCacheKeys.KeysExact` | internal/api/mail_cache.go:326-340 | For NUL-free parts, requests share a key exactly when they ask for the same login, scope, mailbox, thread and page. |
| `ThreadScan.ScanPage` | internal/api/router.go:1390-1405 | One page keeps the tally of matches and the page collected so far exact, stopping at the first match beyond it. |
| `ThreadReach.ReachSuffices` | internal/api/router.go:1372-1417 | Where the scan gives nothing up, the messages its limits let it see and all messages begin alike, up to a full page and one match more. |
| `ThreadScan.ScanThread` | internal/api/router.go:1366-1426 | At most 20 pages, at most 10 of a mailbox, none twice; the items are the requested slice of the matches the limits let it see; truncated is set if and only if the scan leaves a mailbox, its page not full, without an empty page met; with truncated=false the items are the requested slice of all matches over all mailboxes. |
| `ThreadScan.SpuriousTruncation` | internal/api/router.go:1413-1416 | Where every message is in reach the items are right, and truncated is set all the same if and only if a mailbox of more than 450 messages is passed before the page is full. |
| `Triage.OrderIsStrictWeak` | internal/api/mail_triage.go:326-377 | The comparator is a strict weak order under every filter. |
| `Triage.CollapseByThread` | internal/api/mail_triage.go:286-304 | The loop keeps the first message of each thread. |
| `Triage.CollapseDistinct` | internal/api/mail_triage.go:286-304 | No thread appears twice after collapsing. |
| `Triage.CollapseKeepsFirst` | internal/api/mail_triage.go:286-304 | The first message of every thread survives. |
| `Triage.GatherAccepted` | internal/api/mail_triage.go:528-568 | The batched loop terminates and accepts exactly what filtering the whole list accepts. |
| `Triage.QueryIndexed` | internal/api/mail_triage.go:497-585 | Total and page are those of the whole view. |
| `Triage.ViewUnderFilter` | internal/api/mail_triage.go:569-585 | Under a triage filter the view is the collapsed list, sorted stably, every thread once, and its pages laid end to end are the view. |
| `Triage.DeadlinesLast` | internal/api/mail_triage.go:337-377 | Messages without the deadline sorted by come last. |
| `Triage.CheckFilter` | internal/api/mail_triage.go:264-280 | The early returns and nested loops of the filter compute whether a message matches. |
| `TriageFilters.KeepsAll` | internal/api/mail_triage.go:264-284 | Criteria add up: a filter keeps exactly the messages that each of its criteria keeps alone. |
| `TriageFilters.KeepsEitherTag` | internal/api/mail_triage.go:250-262 | A list of tags keeps exactly what one of its two parts keeps. |
| `TriageFilters.KeepsTag` | internal/api/mail_triage.go:250-262 | One tag keeps exactly the messages that carry it up to outer white space. |
| `TriageFilters.KeepsExactly` | internal/api/mail_triage.go:264-284 | A filter keeps exactly the messages it asks for, over their fields; without criteria exactly the snoozed are missing. |
| `TriageFilters.BlankCategory` | internal/api/mail_triage.go:271-275 | A category of blanks does not lift the hiding of snoozed messages and keeps only those with a blank category. |
| `TriageFilters.ViewSelects` | internal/api/mail_triage.go:497-585 | A view holds only messages that are asked for, and all of them, or under a filter one of every thread. |
| `TriageFilters.LiveSelects` | internal/api/mail_triage.go:439-495 | So does the live list, over the messages in reach; the waiting filter alone also leaves one of every thread. |
| `TriageFilters.ThreadKeys` | internal/api/mail_triage.go:290-296 | When two messages are of one thread, over their thread ids and ids. |
| `TriageFilters.ViewOrdered` | internal/api/mail_triage.go:347-377 | No message of a sorted view comes behind one that it should precede. |
| `TriageFilters.OrderMeans` | internal/api/mail_triage.go:337-377 | Which of two messages comes first, over their deadlines, dates and ids. |
| `Ordering.StringLessMeans` | internal/api/mail_triage.go:375 | Strings are compared as in a dictionary. |
| `Ordering.StableSortCorrect` | internal/api/mail_triage.go:347-377 | Stable sorting permutes, sorts, and keeps tied elements in their order. |
| `LiveListing.UniqueUIDsDescending` | internal/mail/imap_smtp.go:317-336 | The loop gives exactly the non-zero UIDs, in strictly descending order. |
| `LiveListing.MailboxPageUIDs` | internal/mail/imap_smtp.go:295-315 | The page is that slice of the one strictly descending order. |
| `LiveListing.UIDPagesTile` | internal/mail/imap_smtp.go:295-336 | The pages laid end to end are the one strictly descending list of the non-zero UIDs. |
| `LiveListing.OrderedSummariesForUIDs` | internal/mail/imap_smtp.go:402-418 | The loop gives the fetched summaries in order, each non-zero UID once. |
| `LiveListing.SummariesOfPage` | internal/mail/imap_smtp.go:402-418 | For a page of the descending order these are exactly the summaries of its fetched UIDs. |
| `LiveListing.PresentPage` | internal/api/router.go:1802-1816 | The loop shows, of the messages with one id, the first. |
| `LiveListing.PresentedWhole` | internal/api/router.go:1802-1816 | A page is shown whole exactly when it repeats no id. |
| `LiveListing.MessageIDInjective` | internal/mail/imap_smtp.go:1280-1281 | Ids of one mailbox tell its messages apart. |
| `LiveListing.MessagesDistinct` | internal/mail/imap_smtp.go:1280-1281 | So no part of a mailbox repeats an id. |
| `LiveListing.ListMessages` | internal/mail/imap_smtp.go:188-217 | UIDs searched, cut, fetched and put in order give that page of the mailbox, newest first. |
| `LiveListing.ScanLive` | internal/api/mail_triage.go:446-482 | The scan asks for at most 20 pages and accepts all their acceptable messages, or, with no conversation filter, a prefix with enough. |
| `LiveListing.ListLive` | internal/api/mail_triage.go:439-495 | Stopping early shows the same page as scanning all 20 pages, for every mailbox. |
| `SpecialMailboxes.ApplySpecialMailboxRoles` | internal/api/router_mail_special.go:277-299 | The nested loops assign the mapped roles one after the other. |
| `SpecialMailboxes.AssignRoleAt` | internal/api/router_mail_special.go:280-297 | With distinct names, one mapping gives its role to the target, takes it from all others, and changes nothing else. |
| `SpecialMailboxes.ApplyMailboxCapabilities` | internal/api/router_mail_special.go:314-330 | A mailbox can be renamed and deleted exactly when it is not protected. |
| `SpecialMailboxes.TrashRoleSurvives` | internal/api/router_mail_special.go:277-299 | A mailbox with the trash role ends without any role only if another mailbox has the trash role. |
| `SpecialMailboxes.DeletableIsNotTrash` | internal/api/router_mail_special.go:277-330 | Premises under which a deletable mailbox is never the resolved trash: distinct names, existing and distinct mapped targets, and trash-like names without another special use. |
| `RoleLaws.NamesByWords` | internal/mail/mailboxes.go:51-69 | The role of a name is inbox by its end, or else that of the first of eight words in it. |
| `Text.ContainsMeans` | internal/mail/mailboxes.go:51-69 | A string contains another if and only if it occurs at some place. |
| `RoleLaws.RoleOfMailbox` | internal/mail/mailboxes.go:5-11 | The first attribute with a role in the table decides, and the name for want of one. |
| `RoleLaws.ResolvesExactly` | internal/mail/mailboxes.go:13-29 | A role resolves to the first mailbox that has it, else to the first whose name sounds like it, else to nothing. |
| `RoleLaws.ProtectedExactly` | internal/api/router_mail_special.go:314-319 | A mailbox is protected if and only if it has a role or is the drafts folder of the application. |
| `RoleLaws.ChoiceNames` | internal/api/router_mail_special.go:277-299 | The choice for a role names a mailbox up to case and outer white space. |
| `TrashRoles.FinalRoleAt` | internal/api/router_mail_special.go:277-299 | The role every mailbox ends with, in closed form for all mappings: the last choice that names it, else nothing if its role was given away, else its own. |
| `TrashRoles.DeletableTrashExactly` | internal/api/router_mail_special.go:277-330 | With distinct names, a deletable mailbox is the resolved trash if and only if no mailbox ends as the trash, it is the first with a trash-like name, and its own role was given away without another coming. |
| `TrashRoles.StaleChoice` | internal/api/router_mail_special.go:277-330 | A mailbox listed as trash, and a choice of trash that names no mailbox: it is deletable and the resolved trash. |
| `TrashRoles.RelistedTrash` | internal/api/router_mail_special.go:277-330 | So is a mailbox named Trash but listed as junk when another is chosen for junk. |
| `DrainToTrash.Server.Move` | internal/api/router_mail_special.go:401-403 | One request: a message leaves the source and becomes the newest of the resolved mailbox, whichever that is, or nothing changes. |
| `DrainToTrash.Server.MovePage` | internal/api/router_mail_special.go:395-411 | The inner loop moves every listed message that has an id, up to the first failure. |
| `DrainToTrash.Server.MoveMailboxMessagesToTrash` | internal/api/router_mail_special.go:369-416 | The outer loop, followed for any number of passes, is where the specified passes are. |
| `DrainEnds.DrainKeeps` | internal/api/router_mail_special.go:369-416 | After any number of passes and whatever failed: no message is lost or copied, no other mailbox is touched, the count says how many moved, and success means the source is empty. |
| `DrainEnds.SuccessMovesAll` | internal/api/router_mail_special.go:369-416 | A successful drain into another mailbox moved every message exactly once, the count being the initial size. |
| `DrainEnds.DrainEndsElsewhere` | internal/api/router_mail_special.go:377-415 | With another mailbox as the trash the loop ends, whatever the server answers. |
| `DrainEnds.NeverEmptiesIntoItself` | internal/api/router_mail_special.go:377-415 | With the source as the trash and a server that does not fail, the loop is running after every number of passes, with as many messages as before. |
| `DrainEnds.DrainEndsExactly` | internal/api/router_mail_special.go:377-415 | On a server that does not fail the loop ends if and only if the source is empty, there is no trash, or the trash is another mailbox. |
| `MailboxDeletion.DeletionEndsExactly` | internal/api/router_mail_special.go:1060-1075 | Deleting a deletable mailbox that holds messages ends if and only if it is not an unguarded trash under its plain name. |
| `MailboxDeletion.StaleDrainRuns` | internal/api/router_mail_special.go:1060-1075 | With a stale choice of trash, the listed trash is deletable and deleting it is still running after every number of passes. |
| `Limiter.Limiter.constructor` | internal/rate/memory.go:19-21 | No buckets, and the sweep clock at the present. |
| `Limiter.Limiter.Allow` | internal/rate/memory.go:23-46 | The sweep loop and the admission change the table and answer as the step of the specification. |
| `Limiter.SameAnswers` | internal/rate/memory.go:27-34 | From any state that a sweep could have left, every call sequence gets the answers of a limiter that never sweeps. |
| `Limiter.GCInvisibleExactly` | internal/rate/memory.go:27-34 | Sweeping never changes an answer, for any call sequence, if and only if no window exceeds three times another plus a tick. |
| `Limiter.RevealingDiffers` | internal/rate/memory.go:27-34 | Where one does, a given call sequence is answered differently. |
| `LimiterBound.BoundByPace` | internal/rate/memory.go:23-46 | Over every run and for any windows: where buckets of a key open at least g apart, a half-open interval of one window admits at most the limit for every g that fits in it, plus twice the limit, less one. |
| `LimiterBound.AtMostTwiceTheLimit` | internal/rate/memory.go:35-46 | With close windows that is twice the limit less one. |
| `LimiterBound.FourInOneWindow` | internal/api/router.go:272-274 | With one-minute and ten-minute windows and a limit of one, four calls are admitted in one ten-minute window, which the bound allows and no more. |
| `Base64.RawRoundTrip` | internal/mail/id.go:10-29 | Unpadded encoding and decoding are inverse for every byte string and usable alphabet. |
| `Base64.PaddedRoundTrip` | internal/mail/imap_smtp.go:1051-1106 | So are padded encoding and decoding. |
| `Base64.DigitsMean` | internal/mail/id.go:10-12 | The 64 digits and the padding, by their characters, in both alphabets. |
| `Base64.DecodesExactly` | internal/mail/id.go:14-18 | Text decodes if and only if it is all of the alphabet and its length is possible. |
| `Base64Lines.EncodeLine` | internal/mail/imap_smtp.go:1072-1096 | The index arithmetic of the inner loop writes the padded encoding of the chunk. |
| `Base64Lines.LineEncoder.Write` | internal/mail/imap_smtp.go:1060-1063 | Buffers the bytes and reports their number. |
| `Base64Lines.LineEncoder.Close` | internal/mail/imap_smtp.go:1065-1106 | Appends the text of the whole buffer to what was written and leaves the buffer empty. |
| `Base64Lines.WriteAllThenCloseTwice` | internal/mail/imap_smtp.go:1051-1106 | Any sequence of writes and a close emits the text of the concatenation; a second close emits nothing. |
| `Base64Lines.LinesRoundTrip` | internal/mail/imap_smtp.go:1051-1106 | Decoding the text with line breaks removed gives the bytes back. |
| `Base64Lines.LineShape` | internal/mail/imap_smtp.go:1051-1106 | Lines end in CRLF, all but the last have exactly 76 characters and no padding, the last has padding only at its end. |
| `Ids.MessageIDRoundTrip` | internal/mail/id.go:10-29 | A message id decodes to its mailbox and UID exactly when the mailbox has no bar, and to an error otherwise. |
| `Ids.DecodedMessage` | internal/mail/id.go:14-29 | What any id decodes to is what stands before the first bar and a UID of 32 bits behind it; without a bar it is refused. |
| `Ids.AttachmentIDRoundTrip` | internal/mail/id.go:31-53 | An attachment id over an encoded message id decodes to that id and part exactly when the part is not negative. |
| `Ids.DecodedAttachment` | internal/mail/id.go:35-53 | The same for attachment ids, with a part that is not negative. |
| `Ids.ScopeRoundTrip` | internal/mail/id.go:98-146 | A scoped id is recognised exactly when the account does not begin with NUL and unscopes to the id exactly when the account has no NUL. |
| `Ids.ScopeNothing` | internal/mail/id.go:98-112 | Without an account an id stays itself, without an id there is none, and a scoped id is not scoped again. |
| `Ids.PrefixesUsable` | internal/mail/id.go:55-58 | The prefixes of scoped message and thread ids, which differ and can be told from white space. |
| `Ids.NulAccounts` | internal/mail/id.go:98-146 | Two accounts with NUL where that fails. |
| `Ids.ScopeInjective` | internal/mail/id.go:98-112 | For accounts without NUL scoping is injective up to trimming. |
| `Ids.NormalizeIdempotent` | internal/mail/id.go:68-73 | Normalising again changes nothing exactly when the id is blank or scoped, or the account is blank or does not begin with NUL. |
| `Ids.SpaceUnitMeans` | internal/mail/id.go:98-146 | The white space trimmed from bytes is that of characters, in UTF-8. |
| `ReplyFunnels.NormalizeSourceAccountIDs` | internal/api/router_mail_funnels.go:109-125 | The loop gives the normalised sources. |
| `ReplyFunnels.SourcesExact` | internal/api/router_mail_funnels.go:109-125 | These are, without repetition, exactly the trimmed ids mentioned, blanks and the collector left out. |
| `FunnelConvergence.RouteConverges` | internal/api/router_mail_funnels.go:757-805 | After the last loop every source is as the mode asks, and no other row or account's rule has changed. |
| `FunnelConvergence.UpsertConverges` | internal/api/router_mail_funnels.go:568-812 | An upsert leaves one collector row and one row per distinct source; in managed mode each points to an enabled stop rule of its account redirecting to the collector, in other modes to none. |
| `FunnelConvergence.RepeatChangesNothing` | internal/api/router_mail_funnels.go:568-812 | In that state the same request changes no row and no rule, and no script is written again. |
| `FunnelConvergence.UpsertSparesRules` | internal/api/router_mail_funnels.go:437-460 | A deleted rule is one that the row of its account pointed to; rules of accounts that are and were no sources stay as they are. |
| `FunnelConvergence.SoundRuleCovers` | internal/api/router_mail_funnels.go:404-413 | A rule taken as up to date redirects to the collector and stops; it fires on exactly the mail addressed to the account if and only if it has no further condition. |
| `FunnelLaws.RowsConverged` | internal/api/router_mail_funnels.go:654-755 | The rows of a converged funnel, field by field: the collector at 0 without a rule, the sources in the order of the request, rules in managed mode only. |
| `FunnelLaws.ManagedRedirects` | internal/api/router_mail_funnels.go:757-805 | In a converged managed funnel every source has a rule that redirects to the login of the collector and stops, and fires on exactly the mail to the login of the source if and only if it has no further condition. |
| `FunnelLaws.MadeRuleIsBare` | internal/api/router_mail_funnels.go:379-403 | A rule that the funnel makes has no further condition and counts as up to date. |
| `FunnelLaws.StoredMode` | internal/store/mail_rules.go:15-22 | The store keeps a rule as it is but for its trimmed name and a mode that is one of two. |
| `FunnelSync.UpsertNotes` | internal/api/router_mail_funnels.go:701-812 | Every account whose rules an upsert changed is among those whose scripts are written again, and none that neither is nor was a source. |
| `FunnelSync.UnlinkedExactly` | internal/api/router_mail_funnels.go:437-460 | Where the store enforces references, deleting a rule leaves no row pointing to it and changes nothing else. |
| `FunnelLaws.SettledMeans` | internal/api/router_mail_funnels.go:63-76 | A known state of assisted forwarding is kept, any other becomes pending; other modes have none. |
| `FunnelStore.CheckRequest` | internal/api/router_mail_funnels.go:568-604 | A request is refused for the first of five reasons, in the order of the code. |
| `FunnelStore.Store.EnsureRedirectRule` | internal/api/router_mail_funnels.go:332-435 | Creates, rewrites or keeps exactly one rule, points the row to it, and keeps the cached lists equal to the table. |
| `FunnelStore.Store.DeleteRedirectRule` | internal/api/router_mail_funnels.go:437-460 | Deletes the rule the row points to, if any, and keeps the cached lists equal to the table. |
| `FunnelStore.Store.PlaceRows` | internal/api/router_mail_funnels.go:654-699 | Writes the collector row and one row per source, positions in order, rules as they were. |
| `FunnelStore.Store.PruneRows` | internal/api/router_mail_funnels.go:701-716 | Deletes exactly the rows no longer asked for and the rules they point to, in any order. |
| `FunnelStore.Store.RouteSources` | internal/api/router_mail_funnels.go:757-805 | The last loop, with or without enforced references, ends in the specified state. |
| `FunnelStore.Store.UpsertReplyFunnel` | internal/api/router_mail_funnels.go:568-812 | A refused request changes nothing; an accepted one ends converged; one made in a converged state changes nothing. |
| `ContactsCSV.SplitPipeValues` | internal/api/contacts_io.go:23-43 | The loop gives the trimmed parts, blanks dropped, of parts equal but for case the first. |
| `ContactsCSV.CellRoundTrip` | internal/api/contacts_io.go:23-43 | A list joined by bars is read back exactly when its members are trimmed, non-empty, bar-free and distinct but for case. |
| `ContactsCSV.ExportContactsCSV` | internal/api/contacts_io.go:119-181 | The nested loops write the header and one row per email, or one row for a contact without any. |
| `ContactsCSV.ParseContactsCSV` | internal/api/contacts_io.go:69-117 | Gathering through the index map equals merging each row into the contact with its key. |
| `ContactsRoundTrip.ReadRow` | internal/api/contacts_io.go:69-117 | An exported row of a tidy contact is read back as that contact with that email. |
| `ContactsRoundTrip.ParseTidy` | internal/api/contacts_io.go:69-117 | Every import, of any rows, gives tidy contacts with distinct keys. |
| `ContactsRoundTrip.ExportRoundTrip` | internal/api/contacts_io.go:54-181 | Importing an export gives the contacts back, in order, with emails, labels and primary flags, if and only if they are tidy and their keys are distinct. |
| `ContactKeys.KeysExact` | internal/api/contacts_io.go:54-67 | Without the separator in any field and with clean lists, two contacts have one key if and only if name, notes, account and sender agree after trimming and nicknames and groups agree but for order. |
| `ContactKeys.RoundTripExact` | internal/api/contacts_io.go:54-181 | The round trip in those terms: if and only if the contacts are tidy and no two agree in all fields but the emails. |
| `ContactKeys.FlagWords` | internal/api/contacts_io.go:45-52 | A flag is set exactly by one of five words, in any case and padded. |
| `ContactsRoundTrip.ImportKeepsAddresses` | internal/api/contacts_io.go:69-117 | For any rows, the contacts imported hold as many emails as there are data rows with an address. |
| `ContactsRoundTrip.GroupsSorted` | internal/api/contacts_io.go:137-143 | Exported groups are the known names, sorted without regard to case. |

## Left out

- Case mapping covers ASCII letters; white space is all of Unicode's. Folding outside ASCII is modelled only for the long s in reply markers.
- Sieve: the grammar is whole, with LF ending a line; of commands and tests, extensions other than `fileinto`, `body` and `addflag`, and the check that what is used is required, are not modelled, and nothing is claimed of scripts that use them. The code asks for a capability named `redirect`, which RFC 5228 does not define; the model keeps what the code does.
- Validation of scripts, the Sieve server and the rule handlers.
- ThreadViews.ViewsAgreeExactly: In-Reply-To is taken to hold no white space outside ASCII, and header fields to fit the 4096 bytes that the list view reads.
- General idempotence of subject and id normalisation, which unusual white space and malformed ids break.
- Preview and HTML cleaning, and the choice of mailboxes for a thread scan.
- NormalizeThreadParticipants and address parsing: they are one function parameter.
- SingleFlight.HitsAreFresh: an invalidation during a fetch does not stop that fetch from being cached; the statement is about invalidations after publication.
- Base64Lines.LineEncoder.Close: write errors are left out; the writer is taken to accept everything.
- The waiting filter of the indexed query is a parameter; Triage.ViewUnderFilter is for queries without it.
- Scans and queries see one fixed snapshot of the mailbox or table, in which every UID can be fetched; server errors appear in ThreadScan and DrainToTrash only.
- MailRulesMeaning.CompilerCorrect: stated for quiet names; MailRulesNoise.CompilerNamed is the statement for all that leave whole commands.
- MailRulesNoise.CompilerNamed: names that leave part of a command, or continue the rule before, are outside it; MailRulesNames.NamesExact says that they are not read as meant.
- MailRulesNames.NamesExact: for names that leave no comment or string open; MailRulesNames.NameExact has no such premise, for one name at a time.
- ThreadHints.HintsMeet: hashing is taken to be injective.
- SpecialMailboxes.DeletableIsNotTrash: sufficient premises only; TrashRoles.DeletableTrashExactly has the exact condition.
- TrashRoles.DeletableTrashExactly: for mailbox names that differ in more than case, as the names of one server do.
- DrainToTrash.Server.MoveMailboxMessagesToTrash: takes a number of passes, since the loop it models need not end.
- MailboxListCache.CallerWrites: takes the separation as a premise; CacheRefinement.SettleWriteEnter and CacheRefinement.EnterWriteEnter derive it.
- Reply funnels: saved searches, sender identities (a parameter), script synchronisation, positions of rules (the model keeps them in listing order) and store failures.
- ContactsCSV works on rows of cells; CSV quoting is its library's. Groups with names equal but for case, which an unstable sort may swap, are outside the round trip.
- vCard import and export: the unescaping patterns do not match what escaping writes, so there is no round trip to state.
- HTTP handlers, sessions, configuration, migrations, outbound campaigns, IMAP and SMTP wire work.
