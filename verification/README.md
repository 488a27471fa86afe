# Verification of aimebu's token-only credential model

The server keeps full credentials (access and refresh token) in a profile store. Every file a command-line tool runs on
is a *target*: a JSON document that the server rewrites without a refresh token, and that the tool and its user rewrite
as they like. This project models the code that does this, and proves what it is there for:

* the lossless editor of JSON objects, over real byte sequences and a grammar of RFC 8259 (sections 2 to 7);
* the builders on top of it (token-only, full, strip), for claude and codex;
* the two readers of a credential, and the guard that keeps a write from destroying a login;
* the choice of the profile that a found login goes to;
* the reconciliation protocol over shared files, as a state machine whose steps interleave in every way, and the
  reconciler's code as a class whose every execution is a run of that machine;
* the quiet case: from the disk as it is, which targets two passes settle, and which they never do.

Four smaller parts are modelled next to it: the command line that resumes a session, the progress watchdog, the
incremental line splitters, and the masking and resolution of mentions.

## How it is built

* `Bytes`, `Grammar`, `Library`: byte strings, syntax trees of JSON texts, and what the program takes from outside. The
  JSON library and the claims of a JWT are parameters: `Json` is any library that accepts exactly the texts of the grammar
  and whose string encoder and decoder undo each other. `Library.Example` shows that there is one.
* `Scanner`, `Editor`, `Edits`, `EditLaws`, `Document`: the flat scanner, parsing and printing, the edits as functions and
  their laws, and the class `JsonObject` whose methods edit in place and are proved equal to those functions.
  `LayoutLaws`: where white space, commas and colons go.
* `Compaction`, `Ordering`, `Builders`, `SectionLaws`, `BuilderLaws`, `Preservation`, `TargetBuilder`: the builders as
  functions, their laws, and the imperative builders. `TargetLaws`, `StripLaws`: every value of what is built or stripped,
  by its name, read off the parsed texts.
* `Readers`, `ReaderLaws`, `ReadBack`, `CredentialReader`: the readers as functions, how they fit the builders, and the
  readers as loops. `CredentialLaws`: what a reader takes from the values of a file.
* `GuardLaws`, `Writing`: where guard and detector differ, and when a target can be written.
* `Examples`, `GoodDisks`: credentials of both tools and a disk on which the conditions of these laws hold.
* `ImportChoice`, `Targets`, `Protocol`, `ProtocolLaws`, and the module `Reconcilers` in `Reconciler.dfy`: the protocol.
  `ChoiceLaws`: the choice of a profile, from the accounts and the store alone. `ImportLaws`: when an import may end, and
  when it has to go on.
* `Passes`, `Convergence`, `StuckTargets`: quiet passes as a function, what they settle, and what they do not. `FanLaws`:
  which files a quiet look writes, and what it leaves in them.
* `Resume`, `FlagLaws`, `Lines`, `Watchdog`, `WatchdogRuns`, `Masking`, `FenceLaws`, `Mentions`, `MentionLaws`: the smaller parts.

A method is proved against a function of the same meaning, and the lemmas are about the function. A `hide` at the head of a
proof names the functions whose bodies it does not need, which keeps it cheap on every solver seed. In
`Reconcilers.Reconciler`, `Others` stands for everybody else's steps between two reads or writes and `Fails` for any
failing call; with `quiet` set, neither does anything, and no step of others is in the history. The ghost field `failures`
counts the calls that failed: `Reconcilers.GroundedDrops` says that while it stands still no import is given up without a
reason found in the files or the store.

A *login* is what the detector `HasRefreshToken` reports. A refresh token that it overlooks can be on disk all the same;
`GuardLaws.GuardSeesMore` says when. A credential *has the fields* when the editor finds a login section with an access
token in it. A disk is *good* when nothing in its store is linked, the active profile can be read, and every login in a
target and every stored credential that reads as full has the fields. A target is *recoverable* when its file is missing,
holds a login, or can be written: the guard sees no token in it and it can be opened.
A credential is *usable* when it reads as full, spells every field once, and names an account if it is codex's.

## Where the code does not keep what its comments say

* `internal/credtarget/write.go:60-63` says that a target write never destroys a login that was not imported. It can: the
  guard reads the first member of a name, the detector the last. `ProtocolLaws.NeverLostIff` gives the exact condition
  over all runs: a login is never lost if and only if the guard sees a token in its document or the document cannot be
  opened. `ProtocolLaws.UnrepeatedIsGuarded` shows that documents without repeated members are safe,
  `ReaderLaws.GuardMissesRepeated` gives a document that is not, `ProtocolLaws.RepeatedLoginIsLost` its run, and
  `ProtocolLaws.GuardedWriteLosesLogin` the condition for one write.
* `internal/credtarget/reconcile.go:58-64` calls the pass self-healing. Some targets are never healed: the guard sees a
  token, so every rewrite is refused, and the detector overlooks it, so it is never imported or stripped.
  `StuckTargets.BlankTokenIsStuck` gives a codex file with a blank token, `StuckTargets.HiddenTokenIsStuck` a claude file
  with a token in its second section. `Passes.ReconcileOneOkIff` says of any target and disk whether a look at it goes
  without an error, `Convergence.QuietPassesRest` what becomes of each target.
* `internal/credtarget/build.go:374` says that `memberIndent` is white space. On a comma-first layout it holds a comma,
  `emptyObject` drops the parse error, and the build dereferences nil. `Preservation.BuildFailsIffCommaFirst` shows that
  this is the only way a build of a usable credential over a readable file fails;
  `Preservation.CommaFirstExampleFails` gives a file.
* `internal/credtarget/jsonedit.go:121-124` says that an empty object is written compact unless it spans several lines. The
  line break that counts is one behind the opening brace, so in `{}` and a line break the first member gets its own line.
  `LayoutLaws.AppendedDeeper`, `LayoutLaws.AppendedBehindBreak` and `LayoutLaws.AppendedCompact` give the three cases.
* A group mention addresses a member outside the group when the bare id of a member of the group is that member's slug.
  `Mentions.GroupMentionsReach` gives the exact set, `Mentions.NamesakeIsAddressed` an instance.

## Model

| member | source | states |
|---|---|---|
| Scanner.ScannerAgreesWithGrammar | internal/credtarget/jsonedit.go:197-240 | On every JSON value of the recursive grammar, whatever follows it, the flat scanner stops exactly at its end. |
| Scanner.ValueIsSkipped | internal/credtarget/jsonedit.go:214-230 | Inside an open bracket a whole value, with brackets of both kinds and escaped strings in it, leaves the depth counter where it was. |
| Scanner.ValuesAreDelimited | internal/credtarget/jsonedit.go:208-240 | A text starts with at most one value that a delimiter follows, so the end of a value is well defined. |
| Scanner.ScanString | internal/credtarget/jsonedit.go:197-206 | The index loop over a string literal finds its end, and never leaves the buffer when there is one. |
| Scanner.ScanValue | internal/credtarget/jsonedit.go:210-240 | The index loops over a value find the end that the suffix function gives. |
| Editor.ParseIsExact | internal/credtarget/jsonedit.go:38-85 | Parsing succeeds on exactly the texts whose value is an object, and printing the result gives the same bytes. |
| Editor.ParsePrinted | internal/credtarget/jsonedit.go:39-85 | Printing a well-formed object and parsing it again gives exactly that object. |
| Document.ParseObject | internal/credtarget/jsonedit.go:39-74 | The parser's index loops return the object, or the error, that the parsing function gives. |
| Document.JsonObject.Bytes | internal/credtarget/jsonedit.go:76-85 | The loop over the members prints the object. |
| Document.JsonObject.Set | internal/credtarget/jsonedit.go:107-115 | In place, the first member of the name gets the value and keeps its key and head, later ones go, and a missing name is appended. |
| Document.JsonObject.AppendMember | internal/credtarget/jsonedit.go:117-145 | In place, the new member comes last, with the head that the layout laws describe. |
| Document.JsonObject.Delete | internal/credtarget/jsonedit.go:159-177 | In place, every member of the name goes; the result says whether there was one. |
| Document.JsonObject.RemoveAt | internal/credtarget/jsonedit.go:179-187 | In place, one member goes, and a member that becomes the first loses its comma. |
| EditLaws.EditedDocumentReparses | internal/credtarget/jsonedit.go:39-187 | A parsed document, edited by any series of sets and deletes and printed, is valid and parses to exactly the edited object: members, heads and tail. |
| EditLaws.AppendKeepsWellFormed | internal/credtarget/jsonedit.go:117-145 | The head laid out for a new member always parses: comma, indentation, key and colon fit the document. |
| EditLaws.SetKeepsWellFormed | internal/credtarget/jsonedit.go:107-115 | A set of a valid value keeps an object well formed. |
| EditLaws.DeleteKeepsWellFormed | internal/credtarget/jsonedit.go:159-187 | A delete keeps an object well formed, also when the first member goes. |
| EditLaws.SetKeepsOthers | internal/credtarget/jsonedit.go:107-115 | A set changes no byte of any other member, nor prefix and tail. |
| EditLaws.DeleteKeepsOthers | internal/credtarget/jsonedit.go:159-187 | A delete changes no byte of any other member but the one comma in front of a new first member. |
| LayoutLaws.AppendedLikeLast | internal/credtarget/jsonedit.go:128-136 | A member appended behind others has the white space, comma and colon that the head of the last one splits into, with one comma in front when that was the first. |
| LayoutLaws.AppendedDeeper | internal/credtarget/jsonedit.go:138-143 | The first member of an object whose closing brace starts a line gets its own line, two spaces deeper than that brace. |
| LayoutLaws.AppendedBehindBreak | internal/credtarget/jsonedit.go:138-143 | So does that of an object which line breaks follow; it is two spaces deeper than the text behind the last of them. |
| LayoutLaws.AppendedCompact | internal/credtarget/jsonedit.go:144-145 | Without a line break behind the opening brace no white space is written at all. |
| LayoutLaws.SetInPlace | internal/credtarget/jsonedit.go:107-115 | A member that is there gets its value where it stands, with key and head as they were; no other of its name is left. |
| LayoutLaws.LedLosesComma | internal/credtarget/jsonedit.go:179-187 | A member that becomes the first loses the comma and no white space. |
| LayoutLaws.SectionLikeMembers | internal/credtarget/build.go:364-384 | A new section in a document of several lines is laid out over two, its closing brace as deep as the first member that starts a line, or two spaces deep. |
| LayoutLaws.SectionIsCompact | internal/credtarget/build.go:364-373 | In a document of one line it is compact. |
| Edits.ValuesSet | internal/credtarget/jsonedit.go:107-115 | After a set the name has exactly the new value, every other name the values it had, in order. |
| Edits.ValuesDelete | internal/credtarget/jsonedit.go:159-177 | After a delete the name is gone, every other name has the values it had, in order. |
| Edits.LookupIsFirst | internal/credtarget/jsonedit.go:87-105 | The editor reads the first of the values of a name. |
| Compaction.CompactKeepsValue | internal/credtarget/build.go:386-392 | Compacting a value gives a value of the grammar, and leaves strings, numbers and literal names as they are. |
| Compaction.CompactIsSame | internal/credtarget/build.go:386-392 | What comes out of compacting is the same tree, every string, number and name with its bytes, without any white space between them. |
| Ordering.OrderingIsUnique | internal/credtarget/build.go:408-420 | The order of the keys does not depend on the order a map is walked in. |
| Ordering.LessIff | internal/credtarget/build.go:413-418 | A key comes before another one when it ends where that goes on, or is smaller at the first character in which they differ. |
| Ordering.SortKeys | internal/credtarget/build.go:413-418 | The insertion sort in place gives the increasing order of the same keys. |
| Ordering.OrderedKeys | internal/credtarget/build.go:408-420 | The keys of a map in increasing order, whatever order the map is walked in. |
| TargetBuilder.CollectFields | internal/credtarget/build.go:166-211 | The loop over the members collects the last spelling of every canonical field, and no refresh token. |
| TargetBuilder.BuildClaudeTarget | internal/credtarget/build.go:129-162 | The builder that edits document and section step by step returns what the builder function gives, errors included. |
| TargetBuilder.BuildCodexTarget | internal/credtarget/build.go:215-247 | The same for codex, with the aliases deleted in any map order; the target laws say what comes out. |
| TargetBuilder.BuildTarget | internal/credtarget/build.go:14-22 | The builder of a tool, and the error for an unknown one. |
| TargetBuilder.BuildFullTarget | internal/credtarget/build.go:27-73 | The full form: a token-only build with the refresh token set again. |
| TargetBuilder.StripRefreshToken | internal/credtarget/build.go:285-326 | The strip of a document in place. |
| BuilderLaws.BuildIsIdempotent | internal/credtarget/build.go:129-247 | Building a target from its own output and the same credential gives the same bytes. |
| BuilderLaws.RebuildUndoesFull | internal/credtarget/build.go:27-73 | A token-only build over the full form of a target gives the bytes of the token-only form. |
| BuilderLaws.StripUndoesFull | internal/credtarget/build.go:285-326 | Stripping the full form of a target gives the bytes of the token-only form. |
| BuilderLaws.StripKeepsBuilt | internal/credtarget/build.go:285-326 | Stripping a token-only target changes no byte. |
| StripLaws.ClaudeStripIs | internal/credtarget/build.go:285-314 | A claude document can be stripped exactly when it and its sections are objects; both sections lose both spellings of the refresh token, and every other value stays. |
| StripLaws.CodexStripIs | internal/credtarget/build.go:285-326 | A codex document can be stripped exactly when it and its tokens are objects; the tokens have an empty refresh token and no second spelling of it, every other value stays, and without tokens every byte does. |
| BuilderLaws.CodexDocumentValues | internal/credtarget/build.go:215-247 | What writing mode, tokens and a given last refresh leaves under each top-level name. |
| TargetLaws.ClaudeTargetIs | internal/credtarget/build.go:129-162 | A claude target, parsed: one section under the new spelling; in it no refresh token, what the credential says last under either spelling of a name, nothing for a managed name it lacks, else what the first section of the file held; outside it what was there. |
| TargetLaws.FullClaudeTargetIs | internal/credtarget/build.go:27-73 | The full form holds the same and the credential's refresh token: the first non-empty one of the two spellings. |
| TargetLaws.CodexTargetIs | internal/credtarget/build.go:215-247 | A codex target, parsed: the mode; the credential's first last refresh, compacted, when it has one that is not null, and else none; one object of tokens with an empty refresh token, no second spellings, the credential's id, access token and account or nothing, and else what was there; outside it what was there. |
| TargetLaws.FullCodexTargetIs | internal/credtarget/build.go:27-73 | The full form holds the same with the first refresh token of the credential. |
| TargetLaws.FieldsIff | internal/credtarget/build.go:166-282 | A credential has the fields of a target exactly when its section, the first under either name, has an access token whose last spelling is a string that is not empty. |
| TargetLaws.FullBuildIff | internal/credtarget/build.go:27-73 | The full form can be built exactly when the token-only one can and the credential has a refresh token that is a string and not empty. |
| SectionLaws.ClaudeSectionValues | internal/credtarget/build.go:142-156 | What a claude build leaves under each name of the section: the credential's field, nothing for a managed name it lacks and for refresh tokens, else what was there. |
| SectionLaws.CodexSectionValues | internal/credtarget/build.go:228-238 | The same for the codex tokens, whose refresh token becomes the empty string. |
| Preservation.BuildKeepsUnowned | internal/credtarget/build.go:10-13 | Over an existing file, every top-level member the server does not own keeps its order, its value and its head up to one comma. |
| Preservation.BuildKeepsSection | internal/credtarget/build.go:129-247 | So does, in the section of the built file, every field of the section that the existing file has, or that is laid out for it, but for what the server owns. |
| Preservation.ClaudeSectionKept | internal/credtarget/build.go:142-156 | Of a claude section it owns the managed fields, those of the credential and the refresh tokens. |
| Preservation.CodexSectionKept | internal/credtarget/build.go:228-238 | Of codex tokens it owns the managed fields, the aliases and the refresh token. |
| Preservation.BuildFailsIffCommaFirst | internal/credtarget/build.go:364-384 | With a usable credential and a readable file a build fails exactly when there is no section yet and the layout is comma-first, and then by a nil dereference. |
| Writing.BuildOkIff | internal/credtarget/build.go:129-247 | A build succeeds exactly when the credential has the fields and the file can be opened: it parses, and is not comma-first without a section. |
| Writing.FieldsOpen | internal/credtarget/reconcile.go:404-421 | A login with the fields can itself be opened, so it can be stripped. |
| Writing.FullHasFields | internal/credtarget/types.go:63-81 | A full credential with one spelling per field has the fields targets are built from. |
| Preservation.CommaFirstExampleFails | internal/credtarget/build.go:364-384 | A concrete comma-first file on which every build fails. |
| CredentialReader.ParseClaude | internal/credtarget/types.go:133-167 | The loop over sections and keys returns what the reader function gives. |
| CredentialReader.RefreshTokenOnDisk | internal/credtarget/write.go:200-234 | The guard's loops find a token exactly when a section holds one of the keys as a non-empty string. |
| CredentialLaws.TrimIsExact | internal/credtarget/types.go:123-131 | What is read of a text is the text without the white space around it. |
| CredentialLaws.MapOfIff | internal/credtarget/types.go:133-137 | A map is read from exactly the texts of objects, and from null, which gives an empty one. |
| CredentialLaws.ClaudeReads | internal/credtarget/types.go:133-167 | A claude file says what its first section says when that has an access token, else what the second one does, with the first one's expiry when it has none. |
| CredentialLaws.CodexReads | internal/credtarget/types.go:169-188 | A codex file says what its tokens say; the account is the one written there, else the id token's, else the access token's. |
| CredentialLaws.FullIff | internal/credtarget/types.go:63-81 | A file reads as full exactly when it says an access and a refresh token, and for claude an expiry that is not zero. |
| CredentialLaws.TargetIff | internal/credtarget/types.go:83-111 | A file reads as a target exactly when it says an access token, and for codex an account; it holds a login exactly when it says a refresh token too. |
| ReaderLaws.GuardIsStrictEnough | internal/credtarget/write.go:200-234 | Every document without repeated members that the detector calls a login is one the writer refuses to overwrite. |
| GuardLaws.DetectorIff | internal/credtarget/types.go:104-110 | The detector sees a login exactly when the section the map-based reader ends on has a refresh token that is not blank. |
| GuardLaws.GuardSeesMore | internal/credtarget/write.go:197-234 | In a document without repeated members the detector misses what the guard sees exactly when every such token is blank or in a section the reader does not end on. |
| ReaderLaws.GuardMissesRepeated | internal/credtarget/write.go:200-234 | A document with a repeated refresh token that the detector calls a login and the guard lets through. |
| ReaderLaws.ReadersAgree | internal/credtarget/types.go:123-131 | On a name that is not repeated, the map-based reader and the editor read the same value. |
| ReaderLaws.BuiltHoldsNoRefreshToken | internal/credtarget/build.go:129-247 | No built target holds a refresh token under either reader, whatever the existing file repeats or misspells. |
| ReadBack.TargetReadsBack | internal/credtarget/types.go:87-102 | For a credential with one spelling per field, the token-only form reads as its access token, expiry and account without the refresh token; it is unusable only for codex without an account. |
| ReadBack.FullTargetReadsBack | internal/credtarget/types.go:66-81 | For such a credential the full form reads as the whole credential. |
| Examples.ExampleIsFull | internal/credtarget/types.go:66-81 | There is a full codex credential with one spelling per field, so the conditions of the laws above can be met together. |
| Examples.ExampleBuilds | internal/credtarget/build.go:14-73 | From it a missing codex target is built in both forms. |
| Examples.LoginIsFull | internal/credtarget/types.go:66-81 | There is such a claude credential, for every library that answers on its expiry. |
| Examples.ExampleAnswers | internal/credtarget/types.go:154-161 | There is a library that answers on it. |
| Examples.LoginBuilds | internal/credtarget/build.go:14-73 | From it a missing claude target is built in both forms. |
| ImportChoice.ChooseImport | internal/credtarget/import.go:62-95 | The choice, with its loop over the account map in any order, is the function that the choice laws describe. |
| ImportChoice.ChooseIsSafe | internal/credtarget/import.go:50-61 | It names an existing profile only when that is the active, empty one, or holds the login's own known account, alone among the others. |
| ChoiceLaws.ChoiceIsByAccount | internal/credtarget/import.go:62-96 | The login goes to the active profile if and only if that is empty or has its account, else to the only other profile that has it, else to a new one. |
| ChoiceLaws.CreatesIff | internal/credtarget/import.go:62-96 | A profile is made exactly when the active one is not empty, or none is named, and the login's account is unknown, or neither the active profile's nor that of exactly one other. |
| ChoiceLaws.AccountKeyIs | internal/credtarget/import.go:110 | Accounts are compared by their case folding without the white space around them. |
| ChoiceLaws.SameTokenIff | internal/credtarget/reconcile.go:437-444 | A stored credential and a file have the same grant exactly when the one reads as full, the other as a target, and both say the same refresh token. |
| ImportChoice.DecideImport | internal/credtarget/reconcile.go:549-610 | The whole first choice over the store, as its loops make it. |
| ImportChoice.DecideIsSafe | internal/credtarget/reconcile.go:549-610 | It replaces an existing profile only when that is active and unusable, holds the same bytes or refresh token, or has the same non-empty account. |
| ImportChoice.SearchInOrder | internal/credtarget/reconcile.go:549-585 | The search ends at the first profile by name that is linked or holds the bytes, and else collects exactly those with the refresh token. |
| ChoiceLaws.DecisionIsExact | internal/credtarget/reconcile.go:549-610 | The whole choice is the one that store and accounts determine: a profile with the bytes, then one with the refresh token, the active one first, then the choice by account; and when it is refused, and why. |
| ImportChoice.FindLinked | internal/credtarget/reconcile.go:458-477 | The loop over the profiles finds whether one is still a link. |
| Protocol.NextKeepsInv | internal/credtarget/reconcile.go:231-421 | Every step of anybody keeps the invariant: a login is stored only after its rescue, stripped only when it is what was stored last, and a lock holder writes from a credential of the profile its targets follow. |
| ProtocolLaws.NoLoginLost | internal/credtarget/reconcile.go:320-421 | In every run, a login that the writer does not write over and that no command-line tool takes away is still in its file, or its token pair has been rescued and stored in a profile. |
| ProtocolLaws.NeverLostIff | internal/credtarget/write.go:60-63 | No run loses a login if and only if the guard sees a token in its document or the document cannot be opened. |
| ProtocolLaws.UnrepeatedIsGuarded | internal/credtarget/write.go:200-234 | Every login in a document without repeated members is one of those. |
| ProtocolLaws.GuardedWriteLosesLogin | internal/credtarget/write.go:123-129 | A guarded write takes a login out of a file if and only if the guard does not see it and the new content can be built. |
| ProtocolLaws.RepeatedLoginIsLost | internal/credtarget/fanout.go:35-50 | A run of three steps, without any tool's step, that destroys a login with a repeated refresh token. |
| ProtocolLaws.WritesFollowActive | internal/credtarget/reconcile.go:271-291 | In every run, a heal or a fan-out writes a live target from a credential of the profile that is active at the moment of the write. |
| ProtocolLaws.ImportIsBounded | internal/credtarget/reconcile.go:340-391 | In every run, a login is stored at most three times and at most one profile is created between two looks at targets. |
| ProtocolLaws.StripsLastStored | internal/credtarget/reconcile.go:404-421 | In every run, a strip that changes anything rewrites one file token-only, and the pair it removes is that of the login stored last, which was rescued too. |
| ProtocolLaws.PickIsSafe | internal/credtarget/reconcile.go:549-610 | In every run, a later round stores into the profile of the first, and the first round picks a new profile or one that may be replaced. |
| ImportLaws.PickIsExact | internal/credtarget/reconcile.go:549-610 | In every run the profile of a first round is the one that the store and the accounts of that moment determine. |
| ImportLaws.SameLoginIff | internal/credtarget/reconcile.go:423-435 | Two usable copies of a file are the same login exactly when they hold the same token pair. |
| ImportLaws.ImportIsFinished | internal/credtarget/reconcile.go:330-396 | In every run, an import that is not given up ends only when its file holds no login any more, or the pair stored last, or after exactly three stores. |
| ImportLaws.ChangedIsImported | internal/credtarget/reconcile.go:364-390 | In every run, when a second look finds a pair other than the one stored last and fewer than three stores were made, the next store puts exactly those bytes, rescued, into the profile of the last one, which is then active, unless the import is given up. |
| ImportLaws.StoresAgree | internal/credtarget/reconcile.go:340-391 | In every run, all stores of an import go to the profile of its first one. |
| Passes.StorePlanIff | internal/credtarget/reconcile.go:549-648 | When nothing is linked, a login has a profile to go to exactly when no profile is active, the active one exists and can be read, or some profile holds its bytes or refresh token. |
| Passes.ReconcileOneOkIff | internal/credtarget/reconcile.go:231-244 | A quiet look at a target goes without an error if and only if the disk allows it: a login has a profile to go to and the fields, nothing is linked; otherwise no heal is due, or the profile's credential has the fields and the file can be written. |
| FanLaws.ImportFansOut | internal/credtarget/fanout.go:35-50 | A quiet import leaves its own file, and every target of the profile that is missing or can be written, built from the login: the live ones and the external ones that name it. No other file changes. |
| FanLaws.LookHeals | internal/credtarget/reconcile.go:261-318 | A quiet look at a file without a login that is not token-only with the access token of the profile it follows leaves it built from that profile, if it can be written, and changes no other file. |
| FanLaws.LookLeavesAlone | internal/credtarget/reconcile.go:231-318 | A quiet look changes nothing when the file is missing, follows no profile with a full credential, or has its access token. |
| FanLaws.BuiltCarries | internal/credtarget/build.go:10-22 | A target built from a usable credential reads as token-only and carries its access token. |
| FanLaws.NameIsFree | internal/credtarget/reconcile.go:635-647 | The name of a new profile is the first of its ten that is not taken; there is none when all are. |
| Convergence.PassFrees | internal/credtarget/reconcile.go:136-168 | From a good disk a quiet pass takes every login out of the targets, and reports no error when all are recoverable. |
| Convergence.LoginFreePassRests | internal/credtarget/reconcile.go:246-318 | A quiet pass over targets without logins moves no pointer, changes no profile, brings every target to rest, and reports an error exactly when one is not settled. |
| Convergence.SettledCarries | internal/credtarget/reconcile.go:294-318 | A settled target that follows a usable profile is token-only and carries that profile's access token. |
| Convergence.QuietPassesRest | internal/credtarget/reconcile.go:136-168 | From a good disk two quiet passes leave no login and a third changes no byte; each recoverable target is settled, and each other one keeps its file and is settled exactly when no heal is due. |
| Convergence.QuietPassesConverge | internal/credtarget/reconcile.go:136-168 | From a good disk whose targets are recoverable no quiet pass reports an error, two settle every target, and a third changes nothing. |
| Convergence.RecoverableIsServed | internal/credtarget/reconcile.go:261-318 | Whatever the other targets are like, with usable logins two quiet passes leave every recoverable target with the access token of the profile it then follows, whenever that profile is usable then; it is when it was before, or when some target held a login and this one follows the active profile, which then holds one of those logins. |
| Convergence.PassFollowsLogin | internal/credtarget/reconcile.go:320-396 | A quiet pass over a target with a login ends with the active profile holding the bytes of a login that was in a target, whatever profile was active before, if any. |
| Convergence.OnlyLoginIsServed | internal/credtarget/import.go:50-68 | When a single file holds a login, two quiet passes put it into the active profile, also when that was empty or none was named, and leave the file token-only with that login's access token. |
| Convergence.UsableIsGood | internal/credtarget/reconcile.go:58-64 | Usable logins and stored credentials with one spelling per field, in a store that can be read, make a disk good. |
| GoodDisks.ExampleDiskIsGood | internal/credtarget/reconcile.go:136-168 | There is such a disk for either tool, with a login in a live file. |
| StuckTargets.DueIsStuck | internal/credtarget/write.go:123-139 | A due heal of a file that cannot be written fails and changes nothing, in every pass. |
| StuckTargets.UnfitLoginIsStuck | internal/credtarget/reconcile.go:351-378 | A login without the fields is reported by every look at it, which changes no file. |
| StuckTargets.BlankTokenIsStuck | internal/credtarget/write.go:224-231 | A codex file with a blank refresh token and a usable active profile on which every quiet pass fails. |
| StuckTargets.HiddenTokenIsStuck | internal/credtarget/types.go:139-165 | A claude file with an access token in its first and a refresh token in its second section on which every quiet pass fails, and keeps the token. |
| Reconcilers.Reconciler.Write | internal/credtarget/write.go:98-147 | A write refuses, fails, or replaces the file by the built content; equal content is not written. |
| Reconcilers.Reconciler.FanOut | internal/credtarget/fanout.go:35-50 | A profile fan-out under the lock, as steps of the protocol; when quiet, one guarded write after the other over the targets the profile reaches. |
| Reconcilers.Reconciler.HealPlan | internal/credtarget/reconcile.go:294-318 | A rewrite is due exactly when the target cannot be read or carries another access token than its usable profile. |
| Reconcilers.Reconciler.Heal | internal/credtarget/reconcile.go:261-292 | Both looks and the locked rewrite, as steps of the protocol; when quiet, the heal function. |
| Reconcilers.Reconciler.ImportOnce | internal/credtarget/reconcile.go:505-545 | Rescue, choice and store, as steps of the protocol; when quiet, the profile that is planned holds the login and is active. |
| Reconcilers.Reconciler.StoreNew | internal/credtarget/reconcile.go:635-647 | The loop over the names of a new profile takes the first free one, or fails after ten. |
| Reconcilers.Reconciler.StripTarget | internal/credtarget/reconcile.go:404-421 | The locked strip: done, the login moved, the lock was busy, or it failed. |
| Reconcilers.Reconciler.ImportLogin | internal/credtarget/reconcile.go:330-396 | The retry loop, whatever others do between its steps, is a run of the protocol and ends; when quiet, the import function. |
| Reconcilers.Reconciler.LookAgain | internal/credtarget/reconcile.go:364-390 | The second look: without a login the import is done; with the same pair it goes on to the strip; with another one the bytes of the file are imported in a further round, and after three rounds the import ends with an error. |
| Reconcilers.GroundedDrops | internal/credtarget/reconcile.go:330-396 | While no call fails, every import that is given up had a reason in the files or the store. |
| Reconcilers.Reconciler.ReconcileTarget | internal/credtarget/reconcile.go:231-244 | One target, as steps of the protocol; when quiet, the function of one target. |
| Reconcilers.Reconciler.Pass | internal/credtarget/reconcile.go:138-168 | Every pass, whatever others do and whichever calls fail, goes on as a run of the protocol; when quiet, by the reconciler's own steps only, and as the pass function. |
| Reconcilers.Reconciler.SettlingTicks | internal/credtarget/reconcile.go:114-134 | Three ticks of the reconciler's loop while all is quiet, from a good disk: the third leaves every byte, none reports an error when all targets are recoverable, and each target comes to rest and is served, also from a login that one of them held. |
| Reconcilers.Reconciler.NoLoginLostSince | internal/credtarget/reconcile.go:320-421 | Between any two moments of the reconciler's life no login is lost that the writer does not write over. |
| Resume.ResumeRoundTrip | cmd/aimebu/agent.go:2316-2354 | For every session that can be resumed, splitting the printed line by section 2.2 of the POSIX Shell Command Language and reading the flags recovers id or short name, harness, rooms or auto-room, role and command. |
| Resume.QuotedReads | cmd/aimebu/agent.go:2346-2354 | A quoted word is read back by a shell as that word, whatever it holds. |
| Resume.ResumeLine | cmd/aimebu/agent.go:2316-2344 | The list of words is built, quoted and joined; nothing is printed for a session without id and name. |
| Resume.ParseFlags | cmd/aimebu/agent.go:203-285 | The loop over the arguments reads the options or stops at the first error, as the reading function does. |
| FlagLaws.ShortNameIs | cmd/aimebu/agent.go:2320-2321 | The short form of a name is its part before the first at-sign. |
| FlagLaws.SettingsAreRead | cmd/aimebu/agent.go:203-285 | Any flags that take values, in either form and any order, leave each option with the last value it was given, and the rooms in order. |
| FlagLaws.ArgumentsAreRead | cmd/aimebu/agent.go:203-285 | What stands behind a double dash is the command. |
| FlagLaws.AutoRoomIsRead | cmd/aimebu/agent.go:203-285 | The last word on the automatic room counts. |
| FlagLaws.ErrorsAreRead | cmd/aimebu/agent.go:203-285 | A flag without its value and a word that is no flag are errors, whatever stands before them. |
| Lines.SplitLosesNothing | cmd/aimebu/agent_state.go:187-199 | Lines and remainder, joined again, are the stream. |
| Lines.ChunkingDoesNotMatter | cmd/aimebu/agent_state.go:187-199 | Two ways to cut one stream into chunks give the same lines and the same remainder. |
| Lines.StateLines.HandleChunk | cmd/aimebu/agent_state.go:187-199 | The state pusher's splitter adds the lines of what was pending and the chunk, and keeps the remainder. |
| Lines.DebugLines.Consume | cmd/aimebu/agent_debug.go:311-323 | So does the debug log's splitter, which counts the lines it emits. |
| Lines.DebugLines.Flush | cmd/aimebu/agent_debug.go:303-309 | What is pending is emitted as a line, once. |
| Lines.BothSplit | cmd/aimebu/agent_debug.go:303-323 | Fed the same chunks, both splitters have the lines and the remainder of the whole stream. |
| Watchdog.CountersAreExact | cmd/aimebu/agent_progress.go:105-147 | Over every well-bracketed stream the counters are the numbers of open tools and bus waits, and the bus wait deadline is set exactly while one is open, not before that of any of them. |
| Watchdog.NoStallDuringTool | cmd/aimebu/agent_progress.go:151-161 | While an ordinary tool is open no stall is reported, whatever the time and the limits. |
| Watchdog.NoEarlyBusWaitStall | cmd/aimebu/agent_progress.go:151-161 | A bus wait is not reported before its own timeout and grace have passed. |
| Watchdog.BusWaitsAreReported | cmd/aimebu/agent_progress.go:151-161 | While only bus waits are open, a stall is reported at the latest when the longest timeout and the grace have passed since the last tool started. |
| Watchdog.ProgressIsTimed | cmd/aimebu/agent_progress.go:105-147 | Over every such stream the last progress is the time of the last tool start or turn end, of the first turn start when there was neither, and the turn flag says whether something has started since the last turn ended. |
| Watchdog.OutputDoesNotPostpone | cmd/aimebu/agent_progress.go:162-184 | In a turn with no tool open a stall is reported exactly from the earlier of the idle limit after the last output and the forward limit after that time on; output alone never moves it past the latter. |
| Watchdog.TurnEndStalls | cmd/aimebu/agent_progress.go:162-184 | Between turns a stall is reported exactly from ninety seconds after the last turn end on, and never before the first one, whatever the limits and the last output. |
| Watchdog.Monitor.Write | cmd/aimebu/agent_progress.go:259-279 | The third splitter: the snapshot has seen every complete line, and the remainder is pending. |
| Watchdog.WriteAll | cmd/aimebu/agent_progress.go:259-279 | While the clock stands still, any chunking of a stream, with or without empty chunks, leaves the snapshot of the whole stream's lines. |
| WatchdogRuns.EventsAreOnLines | cmd/aimebu/agent_progress.go:259-279 | However a stream is cut, its events are those on its lines, in order. |
| WatchdogRuns.Feed | cmd/aimebu/agent_progress.go:259-279 | Chunks at any times leave the snapshot of the events, each at the time of the chunk that completes its line, and the time of the last chunk that is not empty. |
| WatchdogRuns.BusWaitIsExact | cmd/aimebu/agent_progress.go:151-161 | While only bus waits are open, a stall is reported exactly when every bus wait that started since one is open has passed its timeout and grace. |
| WatchdogRuns.Watch | cmd/aimebu/agent_progress.go:149-184 | Of a whole session, from its chunks: what the watchdog reports at a moment, in each of the four situations. |
| Masking.MaskKeepsShape | internal/server/addressing.go:81-123 | Masking keeps length and newlines, and changes bytes only into spaces. |
| Masking.AtSignsLeft | internal/server/addressing.go:81-123 | An at-sign is left if and only if it is not in a fence, in indented code, inside backticks or behind a backslash. |
| FenceLaws.FencedIff | internal/server/addressing.go:94-147 | A line is in a fence exactly when a line before it, outside every fence, opens one that no line in between closes; a fence that is not closed goes on to the end. |
| FenceLaws.IndentedIff | internal/server/addressing.go:186-222 | A line is indented code exactly when it ends a run of indented lines that starts the text or follows a blank or fenced line. |
| Masking.StripKeepsAt | internal/server/addressing.go:234-246 | Stripping escaped mentions removes exactly the at-signs behind a backslash. |
| Masking.MaskInlineAt | internal/server/addressing.go:149-171 | A byte of a line is blanked out exactly when an odd number of backticks stands before it. |
| Masking.MaskCodeForAddressing | internal/server/addressing.go:87-123 | The two passes over the lines give the mask and the mask without escaped mentions. |
| Masking.ApplyIndentedCodeMask | internal/server/addressing.go:186-215 | In place, blank lines are told anew, indented code is blanked out, other lines stay. |
| Mentions.GroupMentionsReach | internal/server/addressing.go:293-351 | Group mentions address exactly the chosen members without the sender, and those whose slug is the bare id of such a member. |
| Mentions.GroupMentionsAreExact | internal/server/addressing.go:293-351 | When no bare id is the slug of another member, they address exactly the chosen members without the sender. |
| Mentions.NamesakeIsAddressed | internal/server/addressing.go:328-335 | A room in which the humans are mentioned and a bot is addressed. |
| Mentions.AddressNameIsExact | internal/server/addressing.go:416-424 | The name a member is addressed by matches that member, and another one only when its bare id is the other's slug. |
| MentionLaws.ShortNameIs | internal/server/addressing.go:544-549 | An id is short for its part before the first at-sign, when that is not empty. |
| MentionLaws.ResolveIsExact | internal/server/addressing.go:293-380 | Any list of tokens resolves to exactly the names its tokens stand for: the members of a group without the sender, a member by its full id, the one member of a name but none of several, a known name of nobody here, else the holders of a role without the sender. |
| MentionLaws.ResolveInOrder | internal/server/addressing.go:293-380 | No name comes twice, and the names of earlier tokens come first. |
| MentionLaws.ResolveReaches | internal/server/addressing.go:293-424 | Whom any list of tokens addresses, member by member, groups mixed with names, ids and roles. |
| Mentions.ResolveAddressedTokens | internal/server/addressing.go:293-380 | The loops over tokens and members give the names that the resolution function gives; the mention laws say which those are. |

## Left out

- The nesting limit of 10000 levels in Go's JSON decoder: the grammar has none.
- The differences between `encoding/json` and the other JSON library of the repository: one library stands for both.
- JWT and base64 decoding, the account files and the account found in a login: parameters of the model.
- Reconcilers.Reconciler.Pass: one tool at a time; files, profiles and pointer of the other tool are not part of the state.
- Reconcilers.Reconciler.ImportOnce: the choice reads the store in one step; in the program others may change profiles between its reads.
- Reconcilers.Reconciler.Write: the read, the check and the rename are one step, which is what `.storage-write.lock` is for; the lock itself, whose stale takeover is a stat followed by a remove, is not modelled. `WriteFullTarget`, which puts a full credential back when the feature is switched off, is `BuildFullTarget` behind the same guard; the reconciler does not call it.
- Reconcilers.Reconciler.OneOther: the body shows some of the steps of others; what callers may assume of it is any of the protocol's.
- ImportChoice.DecideImport: it gets the store as it is at one moment, for the same reason.
- Reconcilers.GroundedDrops: giving up the store of a new profile, for which all ten names may have been taken, always counts as having a reason; so does giving up a heal.
- Convergence.QuietPassesRest: two targets at one path have to follow the same profile, else each pass rewrites what the other wrote; and every login has to have the fields, since one without them is filed again in each pass and moves the pointer with it.
- Convergence.PassFrees: a login is what the detector sees, so a refresh token that only the guard sees can stay.
- Watchdog.CountersAreExact: streams in which a tool ends that is not open are not covered; the program clamps the counters at zero there.
- Mentions.GroupMentionsReach: lower case is that of ASCII letters, of which ids and slugs are made.
- `ClearActive` and `FanOutActiveReplacing`: they remove or overwrite live files without looking at them, so their safety is a duty of their callers.
- The gates that switch the reconciler off for all tools or one; a cancelled pass is a failing call.
- The settling time of a fresh login, mode fixes, alerts, notes and log lines, the memory of the not-migrated alert.
- The lifetime of the account lock of a profile: taking it may fail, holding it excludes nobody in the model.
- File modes, owners, fsync, temporary files, goroutines, timers and clocks: contents and explicit times instead.
- Finding mentions by regular expression, legacy name prefixes, and the advice attached to a message.
- The debounce of pushed states: an older pending state can survive a later observation, so its comment does not hold.
- The conversion of a bus wait's timeout from a float, and which lines are events: parameters.
- The front end, the HTTP client and server, process control, TLS, usages and the switcher package.
