# Models of mycelium's hard parts

A Dafny 4.11 model of the parts of mycelium where correctness does not follow from
reading one function: the admission gate for model runs, master-key sealing under
concurrent account operations, the two readers of a book, the search index, the
conversation protocol of the agent loop, and a handful of loops with real proofs. What
changes state in the program is a class or a loop here, proved against a specification;
what the program promises is proved about the specification. `dafny verify
dfyconfig.toml` checks everything.

## The parts

- **Gate** (`gate_*.dfy`, `gate.dfy`). `GateState` is the state under the lock and one
  left-to-right greedy pass over the queue; `GateProtocol` is every interleaving of
  callers as a state machine, with a one-shot mailbox per waiter; `LlmGates` is the code's
  classes, each method proved to be the protocol's step. The theorems hold in every run:
  slots conserved, no idle slot beside an admissible waiter, no overtaking, counters
  conserved, positions exact. `GateEffects` says what each step does to permits, futures
  and slots.
- **Accounts** (`seal.dfy`, `users*.dfy`). Cryptography is symbolic. Password changes are a
  read and an unconditional write, rotations a read and a compare-and-swap, and they
  interleave freely; the store's methods are the steps. Logins and files never break, and
  the password that works is the one last written (`ChosenPasswordLogsIn`). The
  recovery key last shown to a user does: a password change that overlaps a rotation
  silently puts the old recovery seal back. `AnnouncedKeyAlwaysWorks` and
  `AnnouncedKeyBySeal` give the exact condition.
- **Books** (`text.dfy`, `book*.dfy`). The outline builder and the passage extractor scan a
  book independently and meet through a printed anchor. On a book where neither finds an
  id they agree on every chapter and section. An id only the extractor finds (`# T {#}`,
  or an id with spaces behind it) makes it look every chapter of a counted outline up by
  id: an anchor then finds nothing, its own chapter or another one, and
  `ChapterLeadsHome` says exactly when its own. Sections are still counted unless an id
  carries both numbers (`SectionLeadsHome`). In a book with ids, an anchor opens the first
  heading with its number, and a section id numbered zero is listed but is no anchor.
  `BookReading`, `BookHeadings`, `BookTitles` and `BookAnchoredMeaning` tell what both
  readers see in anchors, lines, ids and titles character by character.
- **Search** (`search*.dfy`, `sorting.dfy`). After any re-adds the index is the one of the
  latest documents, and a search over it is the brute-force search. `SearchWords` and
  `SearchMeaning` tell tokens, answers and scores from the documents alone.
- **Conversation** (`conversation*.dfy`, `agent*.dfy`). The trim that counts units from the
  front is dropping one unit at a time; no trim and no run ever separates a tool call from
  its results; each result says what its tool gave. The comment that cutting a tool result only ever shrinks a request is wrong
  by up to 39 bytes (`CutMayGrow`).
- **Section edit** (`replace_section*.dfy`). Replacing a section keeps every other line, and
  doing it twice equals doing it once exactly when no kept line ends in a carriage return.
- **Links and graph** (`links*.dfy`, `graph*.dfy`). Inline masking blanks exactly the code spans
  of section 6.1 "Code spans" of CommonMark 0.31, and unclosed runs to the end of the
  line. The graph follows the code where its comment differs: a concept whose only link is
  broken is not an orphan.
- **Vectors** (`embeddings.dfy`, `vector*.dfy`). A response is read back into input
  order exactly when it is a permutation. A drain parks a pair or tries to store it with
  the vector one of its own requests brought for its text; a pair is neither stored nor
  parked exactly when the store refuses its row.
- **Fallback** (`fallback*.dfy`). The direct add ends in any store, writes one path, and
  changes no other text; repeated, it changes nothing more.

## What is taken as given

The gate's callbacks do not panic and its lock is not poisoned. `dispatch` runs in both
`set_capacity` and `set_per_user_active`, although the comment at
`crates/mycelium-librarian/src/llm.rs:146` names only the first. The random source, the
health verdict, the model, the tools, the embeddings backend, the logarithm and Unicode
lowercasing are parameters: the theorems hold for all of them.

## Model

| member | source | states |
|---|---|---|
| GateTheorems.SlotsConserved | crates/mycelium-librarian/src/llm_gate.rs:147-166 | In every reachable state the slot count is the number of live permits plus admissions nobody has collected, for each user too, and no user is listed with zero |
| GateTheorems.NoSaturation | crates/mycelium-librarian/src/llm_gate.rs:156-166 | On every path that gives a slot back, both saturating subtractions take one from a positive count |
| GateTheorems.NoIdleSlot | crates/mycelium-librarian/src/llm_gate.rs:175-195 | Whenever the lock is free and a slot is free, every queued waiter is at its own cap: no wakeup is lost on enqueue, release, resize, cancel, close or timeout |
| GateTheorems.NobodyForgotten | crates/mycelium-librarian/src/llm_gate.rs:385-418 | A waiter that is no longer queued always finds an outcome in its mailbox, so the dropped-sender arms of `enter` are dead |
| GateTheorems.CountersConserved | crates/mycelium-librarian/src/llm_gate.rs:168-191 | Ids issued = queue admissions + timeouts + queue length; admissions = wait samples + try-class admissions, over every run |
| GateOrder.DefencesIdle | crates/mycelium-librarian/src/llm_gate.rs:177-191 | `retain` in `dispatch` removes nobody and no admission send fails, wherever in the pass, at every coherent gate `dispatch` runs on |
| GateTheorems.BypassOnlyAtCap | crates/mycelium-librarian/src/llm_gate.rs:175-195 | In every run, when a step admits a waiter while an earlier one stays queued: in the queue of the gate that step dispatches the one passed stands before the one admitted; as the pass reaches the latter a slot is free, its user is under the cap and everybody left behind is at its cap; and the one passed still is when the lock is free |
| GateOrder.StepDispatches | crates/mycelium-librarian/src/llm_gate.rs:343-525 | Which gate each step dispatches; the step leaves what that dispatch leaves, but for the mailbox of a future that ends, and a step without a dispatch admits no waiter |
| GateTheorems.NoOvertaking | crates/mycelium-librarian/src/llm_gate.rs:357-361 | Over whole runs grants come in arrival order for one user, towards anonymous waiters, and wherever either side met an empty queue |
| GateTheorems.StepWithinLimits | crates/mycelium-librarian/src/llm_gate.rs:139-153 | No step raises the slot count or a user past the limit in force after it |
| GateTheorems.LimitsHold | crates/mycelium-librarian/src/llm_gate.rs:139-153 | Without resizes neither the capacity nor the per-user cap is ever exceeded |
| GateTheorems.ConfigBurstCapped | crates/mycelium-librarian/src/llm.rs:115-153 | Applying a configuration leaves its clamped limits in force, at most 64 slots, and admits its burst under the new per-user cap, whatever the old one was |
| GateTheorems.PositionsExact | crates/mycelium-librarian/src/llm_gate.rs:198-205 | Whenever the lock is free each waiter was last told its present index, and the positions told to one waiter strictly decrease |
| GateTheorems.StepExtends | crates/mycelium-librarian/src/llm_gate.rs:198-205 | A step only adds to what was granted and reported, and reports only on waiters queued before it or new |
| GateTheorems.SilentAfterLeaving | crates/mycelium-librarian/src/llm_gate.rs:472-489 | An id that left the queue never returns to it and is never reported on again |
| GateTheorems.RunSound | crates/mycelium-librarian/src/llm_gate.rs:343-525 | The whole invariant holds after every step of every run, from any starting capacity |
| GateSteps.StepSound | crates/mycelium-librarian/src/llm_gate.rs:343-525 | Each of the twelve steps (enter, try-enter, collect, bound elapsed and its settling, cancel and its finish, permit drop, close, three setters) keeps the invariant |
| GateSteps.InitSound | crates/mycelium-librarian/src/llm_gate.rs:229-246 | A new gate satisfies the invariant, at any requested capacity |
| GateInvariants.DispatchCoherent | crates/mycelium-librarian/src/llm_gate.rs:175-205 | `dispatch` keeps accounts, channels, order, counters and reports coherent and leaves nothing admissible queued |
| GateOrder.SweepDivides | crates/mycelium-librarian/src/llm_gate.rs:175-195 | One pass loses and invents no waiter: it divides the queue into those kept and those granted, both in order, together the queue as a multiset, and grants exactly the latter |
| GateInvariants.SweepLeavesCapped | crates/mycelium-librarian/src/llm_gate.rs:175-195 | The pass is work-conserving: the slots run out, or every waiter it keeps is at its cap |
| GateInvariants.SweepDelivers | crates/mycelium-librarian/src/llm_gate.rs:175-195 | The pass puts an admission into exactly the mailboxes of the waiters it does not keep |
| GateState.SweepRescans | crates/mycelium-librarian/src/llm_gate.rs:175-195 | Admitting the first admissible waiter and rescanning from the head equals one left-to-right greedy pass |
| GateState.SweepAllCapped | crates/mycelium-librarian/src/llm_gate.rs:175-195 | If every waiter is at its cap the pass admits nobody |
| GateState.AdmitKeepsCaps | crates/mycelium-librarian/src/llm_gate.rs:139-153 | An admission never brings a capped user back under the cap, the reason a rescan is a single pass |
| LlmGates.Inner.Dispatch | crates/mycelium-librarian/src/llm_gate.rs:175-195 | The rescan loop over the live queue leaves exactly the state of the greedy pass followed by the position reports |
| LlmGates.Inner.NotifyPositions | crates/mycelium-librarian/src/llm_gate.rs:198-205 | Every waiter whose index changed is told it, in queue order |
| LlmGates.Inner.FirstAdmissible | crates/mycelium-librarian/src/llm_gate.rs:182-187 | The scan finds the first waiter under its cap, or that there is none |
| LlmGates.Inner.TakeSlot | crates/mycelium-librarian/src/llm_gate.rs:147-153 | Counts the slot for the gate, the user and the admission counter and changes nothing else |
| LlmGates.Inner.FreeSlot | crates/mycelium-librarian/src/llm_gate.rs:156-166 | Gives the slot back, dropping a user that reaches zero |
| LlmGates.Inner.Close | crates/mycelium-librarian/src/llm_gate.rs:429-437 | Empties the queue, counts each waiter as given up and sends each a closed outcome |
| LlmGates.LlmGate.EnterGate | crates/mycelium-librarian/src/llm_gate.rs:343-383 | Enters on the fast path only past an empty queue, else enqueues and dispatches: the protocol step, proved of the fields updated in place. A permit given at once is new, live under its user, and takes one more slot |
| LlmGates.LlmGate.TryEnterGate | crates/mycelium-librarian/src/llm_gate.rs:319-335 | Gives a permit exactly when a slot is free and nobody is queued: a new one, live from then on, with one more slot taken; else nothing changes |
| LlmGates.LlmGate.ElapseBoundOf | crates/mycelium-librarian/src/llm_gate.rs:397-418 | On timeout a queued waiter leaves and is counted; one that already left goes on to read its mailbox |
| LlmGates.LlmGate.CancelWait | crates/mycelium-librarian/src/llm_gate.rs:472-489 | A dropped waiter leaves the queue, is counted, and the rest is dispatched |
| LlmGates.LlmGate.FinishCancelOf | crates/mycelium-librarian/src/llm_gate.rs:490-498 | A dropped future that holds an uncollected admission gives its slot back, once |
| LlmGates.LlmGate.ReadMail | crates/mycelium-librarian/src/llm_gate.rs:385-418 | The mailbox decides between a closed gate and a permit, which is new and live under the waiter's user; its slot was taken at the admission |
| LlmGates.LlmGate.ReleasePermit | crates/mycelium-librarian/src/llm_gate.rs:439-443 | Dropping a permit frees its slot and dispatches |
| LlmGates.LlmGate.SetCapacityTo | crates/mycelium-librarian/src/llm_gate.rs:263-268 | Clamps, stores and dispatches |
| LlmGates.LlmGate.SetPerUserActiveTo | crates/mycelium-librarian/src/llm_gate.rs:283-289 | Clamps, stores and dispatches |
| LlmGates.LlmGate.ApplyConfig | crates/mycelium-librarian/src/llm.rs:115-153 | The three limits are clamped to the configuration's own ranges and applied in the order that puts the capacity last |
| GateEffects.TryEnterEffect | crates/mycelium-librarian/src/llm_gate.rs:319-335 | A try-enter adds exactly one live permit, without a user, and one taken slot if and only if the queue is empty and a slot is free; else it changes nothing |
| GateEffects.EnterEffect | crates/mycelium-librarian/src/llm_gate.rs:343-383 | An enter adds exactly one live permit under its user, with one more slot for the gate and the user, if and only if nobody is queued and it may run; else exactly one new future |
| GateEffects.CollectEffect | crates/mycelium-librarian/src/llm_gate.rs:385-418 | Reading the mailbox ends that future and no other, and adds a permit, new and under its user, exactly on an admission |
| GateEffects.ElapseEffect | crates/mycelium-librarian/src/llm_gate.rs:397-418 | A bound that elapses takes a queued waiter and nobody else out of the queue, counts it, and frees no slot |
| GateEffects.CancelEffect | crates/mycelium-librarian/src/llm_gate.rs:472-489 | A dropped waiter leaves for good; of the others only those leave the queue that find an admission |
| GateEffects.DropEffect | crates/mycelium-librarian/src/llm_gate.rs:439-498 | Finishing a drop ends that future, dropping a permit that permit, and nothing else |
| GateEffects.CloseEffect | crates/mycelium-librarian/src/llm_gate.rs:429-437 | Closing leaves the queue empty, counts everyone in it, and puts a closed outcome into exactly their mailboxes; permits, slots and admissions stay |
| GateEffects.LimitEffects | crates/mycelium-librarian/src/llm_gate.rs:263-299 | Each setter puts its own limit to the nearest number in its range and leaves the other two alone |
| GateEffects.ConfigEffect | crates/mycelium-librarian/src/llm.rs:115-153 | A configuration puts the limits to the nearest in 1..64, 1..16 and 1..1024 |
| GateEffects.InitEffect | crates/mycelium-librarian/src/llm_gate.rs:229-246 | A new gate has the nearest allowed capacity, two runs a user, a depth of 64, and nobody in it |
| GateEffects.RunTells | crates/mycelium-librarian/src/llm_gate.rs:198-205 | In every run, the position each queued waiter was last given is among the reports made to it |
| Seal.SealOpens | crates/mycelium-crypto/src/seal.rs:62-88 | A fresh record opens to the master key under its password and its recovery key and under no other |
| Seal.ChangePasswordOpens | crates/mycelium-crypto/src/seal.rs:129-150 | A password change keeps the master key and the recovery seal and moves the password seal; a wrong old password changes nothing |
| Seal.RotateOpens | crates/mycelium-crypto/src/seal.rs:152-171 | A rotation keeps the master key and the password seal and moves the recovery seal |
| Seal.SealSpelled | crates/mycelium-crypto/src/seal.rs:62-88 | A fresh record is made exactly with a recovery key that parses and a salt of 16 bytes, and holds the master key under either, each seal with its own label |
| Seal.RecoveryKeyText | crates/mycelium-crypto/src/keys.rs:194-205 | A recovery key is the prefix and 64 hexadecimal digits, and nothing else is |
| Seal.RecoveryKeySame | crates/mycelium-crypto/src/keys.rs:194-205 | Two recovery keys are the same exactly when their digits are, whatever their case |
| Seal.UnsealRefused | crates/mycelium-crypto/src/seal.rs:90-128 | Another version is refused by either key, a salt of another length by the password |
| Seal.FileBound | crates/mycelium-crypto/src/file.rs:13-33 | A file decrypts exactly under the master key and the path it was encrypted with |
| Users.RunGood | crates/mycelium-auth/src/users.rs:189-293 | Over every interleaving of account operations each stored record opens to its original master key, and hash and password seal accept the same password |
| Users.LoginNeverBreaks | crates/mycelium-auth/src/users.rs:189-206 | At every later moment some password logs in, logging in yields the original master key, and no login that passes the hash check fails to unseal |
| Users.SomeRecoveryKeyWorks | crates/mycelium-auth/src/users.rs:223-293 | At every later moment some well-formed recovery key opens the record to the original master key |
| Users.FilesStayReadable | crates/mycelium-crypto/src/file.rs:13-33 | A file stored at any time opens after any later login of its owner, at its own path and at no other |
| Users.AnnouncedKeyAlwaysWorks | crates/mycelium-auth/src/users.rs:223-255 | The recovery key last shown to the user works throughout a run if and only if no password change writes back a seal made under another recovery key than the stored one |
| UserSeals.AnnouncedKeyBySeal | crates/mycelium-auth/src/users.rs:240-255 | The same told from the stored texts: when no recovery key is generated twice, the announced key works throughout if and only if every password change writes back exactly the recovery seal then stored |
| UserSeals.SameSealKeepsKey | crates/mycelium-auth/src/users.rs:240-255 | While every password change does, the announced key works, whatever keys are generated |
| UserSeals.RunTraced | crates/mycelium-auth/src/users.rs:223-292 | Every recovery seal stored or about to be written is the one some earlier creation or rotation of this account made |
| Users.RunNamesApart | crates/mycelium-auth/src/users.rs:103-136 | No two accounts ever share a username or an email, ASCII capitals aside |
| Users.StaleChangeUndoesRotation | crates/mycelium-auth/src/users.rs:240-255 | On every account: a password change that read before a rotation and writes after it puts the old recovery seal back |
| Users.OneRotationWins | crates/mycelium-auth/src/users.rs:274-292 | Of two rotations that read the same record only the first to write succeeds |
| Users.StepGood | crates/mycelium-auth/src/users.rs:103-293 | Every single step keeps the invariant |
| Users.UserStore.UpdateSealed | crates/mycelium-auth/src/users.rs:274-292 | The compare-and-swap writes exactly when the stored column is the one read, reports whether it did, and is the protocol's step |
| Users.UserStore.ReadChange | crates/mycelium-auth/src/users.rs:223-239 | The checks and the computation before the write, in the code's order, as the protocol's step; UserPasswords.ChangeDecided says what they decide |
| UserPasswords.ChangeDecided | crates/mycelium-auth/src/users.rs:223-243 | A change is refused for a short new password, then a wrong old one, then a bad salt; else what it is about to write is hashed and sealed for the new password |
| UserPasswords.ChangeUnknown | crates/mycelium-auth/src/users.rs:223-236 | For an account that is not there a change is refused for a short new password first, then as not found |
| UserPasswords.ChangeTakes | crates/mycelium-auth/src/users.rs:223-255 | Once a change from p to q is written, over whatever the row holds by then, q logs in to the original master key and every other password is refused, p too if it is another |
| UserPasswords.NewAccountDecided | crates/mycelium-auth/src/users.rs:103-159 | An account is created exactly for a password of twenty characters, a recovery key that parses, a salt of its length and a name and address new in any spelling; it then has that password |
| UserPasswords.ChosenPasswordLogsIn | crates/mycelium-auth/src/users.rs:103-293 | However the operations interleave, the password of the last change written, or else of the creation, logs in to the original master key, and no other does |
| UserPasswords.FileStored | crates/mycelium-crypto/src/file.rs:13-33 | A file is stored exactly when its owner's password is given and the path is absolute, and opens to its content there |
| Users.UserStore.WriteChangeOf | crates/mycelium-auth/src/users.rs:240-255 | The unconditional update replaces hash and seal of the row, if there still is one: the protocol's step |
| Users.UserStore.ReadRotation | crates/mycelium-web/src/api.rs:3060-3116 | The regenerate handler up to its write, as the protocol's step |
| Users.UserStore.CreateLocal | crates/mycelium-auth/src/users.rs:103-159 | Creates the row with both seals, or refuses a short password, a bad key, or a username or email taken in any spelling: the protocol's step |
| Users.UserStore.Delete | crates/mycelium-auth/src/users.rs:367-376 | Removes the row, or reports that there was none: the protocol's step |
| Text.DecimalRoundTrip | crates/mycelium-librarian/src/extract.rs:349-369 | A printed index reads back as itself |
| Text.PrintedU32 | crates/mycelium-core/src/library.rs:46-79 | A printed index parses as u32 exactly below 2^32 |
| TextMeaning.NumeralExact | crates/mycelium-core/src/library.rs:46-79 | A string parses as a u32 exactly when it is zeros and the number as printed, perhaps behind a plus sign, and the number is below 2^32 |
| TextMeaning.SplitExact | crates/mycelium-core/src/library.rs:183-204 | The lines are the text cut behind each newline and nowhere else |
| TextMeaning.StripExact | crates/mycelium-librarian/src/extract.rs:122-123 | A line read by `lines` loses a newline or a carriage return and newline at its end, and nothing else |
| TextMeaning.OddExact | crates/mycelium-core/src/library.rs:183-204 | A line is fenced when the number of fence lines before it is odd |
| TextMeaning.StartExact | crates/mycelium-core/src/library.rs:183-204 | A heading's offset is the length of everything before its line |
| Book.ChapterAnchorRoundTrip | crates/mycelium-core/src/library.rs:46-79 | A printed chapter anchor parses back to its index and slug, whatever the slug; past u32 it is no anchor |
| Book.SectionAnchorRoundTrip | crates/mycelium-core/src/library.rs:46-79 | The same for a section anchor |
| BookExtract.CountBasedChapter | crates/mycelium-core/src/library.rs:293-320 | The counting pass, with its early return, yields the span from the chapter mark to the next chapter mark or the end |
| BookExtract.CountBasedSection | crates/mycelium-core/src/library.rs:335-394 | The two passes, the second restarting at the chapter line, yield the span of the section mark inside its chapter |
| BookExtract.FindChapterLine | crates/mycelium-core/src/library.rs:335-356 | The first pass stops at the line of the chapter, exactly when there is one |
| BookExtract.ScanForSection | crates/mycelium-core/src/library.rs:358-394 | The second pass stops at the wanted section's end: the next section, the next chapter or the end of the text |
| BookPassage.CollectHeadings | crates/mycelium-core/src/library.rs:183-204 | The heading pass finds every heading outside fences with its level, id and offset |
| BookPassage.ExtractPassageCapped | crates/mycelium-core/src/library.rs:115-138 | Empty book, anchor kinds, id-based and counting extraction and the character cap, as one specification; BookReading.PassageExact says what that is |
| BookReading.PassageExact | crates/mycelium-core/src/library.rs:115-138 | A passage is a beginning of what its anchor asks for, all of it if that fits the cap and else exactly as many characters as the cap; what is asked for is the book for an empty anchor, a chapter's or section's cut, or an error, which passes as it is |
| BookReading.ChapterAnchorExact | crates/mycelium-core/src/library.rs:46-62 | An anchor names a chapter exactly when it reads `ch-`, a number from one to 2^32 - 1, and perhaps a dash and a slug |
| BookReading.SectionAnchorExact | crates/mycelium-core/src/library.rs:62-82 | And a section exactly when it reads `sec-`, two such numbers with a dash between, and perhaps a dash and a slug |
| BookReading.MissingNamed | crates/mycelium-core/src/library.rs:285-394 | A missing chapter is reported as `ch-` and its number, a missing section as `sec-` and both numbers |
| BookReading.OtherAnchor | crates/mycelium-core/src/library.rs:60-82 | Every other anchor is taken as it is |
| BookReading.ChapterCutExact | crates/mycelium-core/src/library.rs:260-287 | In a book with ids a chapter is cut from the first heading whose id reads `ch-` and its number to the next whose id starts with `ch-` |
| BookReading.SectionCutExact | crates/mycelium-core/src/library.rs:221-239 | A section some id names is cut from the first heading with both numbers to the next of its level or above |
| BookReading.KindExact | crates/mycelium-core/src/library.rs:298-304 | The counting readers take a line by its first characters that are not white space: three backticks or tildes, `# `, `## ` |
| BookHeadings.HeadingsExact | crates/mycelium-core/src/library.rs:154-204 | The extractor's headings are exactly the heading lines outside fences, in order, at the offsets where their lines start, with the ids they show |
| BookPassage.HeadingsInOrder | crates/mycelium-core/src/library.rs:183-204 | Headings come in order inside the text, so every slice taken is in bounds |
| BookOutline.ParseOutline | crates/mycelium-librarian/src/extract.rs:116-221 | The outline built in two passes is the specified one, for books with and without ids; BookHeadings.EntriesExact and BookAnchoredMeaning.OutlineExact say which headings it lists, how titled and in what order |
| BookHeadings.EntriesExact | crates/mycelium-librarian/src/extract.rs:119-145 | The outline is built from exactly the heading lines outside fences, in order, each with the level, id and title its line shows |
| BookTitles.TitleExact | crates/mycelium-librarian/src/extract.rs:133-143 | On any heading line: if the text ends in `{#id}` for the id read, it is white space, the title, white space and `{#id}`, else white space, the title and white space; the title has none at its ends |
| BookTitles.TitleUnique | crates/mycelium-librarian/src/extract.rs:133-143 | There is only one such title |
| BookTitles.HeadingWithId | crates/mycelium-librarian/src/extract.rs:130-143 | A heading written with a title and `{#id}` is read as that level, that id and that title |
| BookTitles.HeadingWithoutId | crates/mycelium-librarian/src/extract.rs:130-143 | A heading that ends in no brace is read as that level and title, without an id |
| BookTitles.AnchoredChapterTitle | crates/mycelium-librarian/src/extract.rs:161-171 | Each chapter of an outline read by ids has the title of an unfenced heading with its id, and the slug of that title |
| BookTitles.AnchoredSectionTitle | crates/mycelium-librarian/src/extract.rs:172-185 | So has each section |
| BookTitles.PlainChapterTitle | crates/mycelium-librarian/src/extract.rs:193-206 | Each chapter of a counted outline has the title of an unfenced heading, and its slug |
| BookTitles.PlainSectionTitle | crates/mycelium-librarian/src/extract.rs:207-219 | So has each section of one |
| BookOutline.OutlineFromMarks | crates/mycelium-librarian/src/extract.rs:116-221 | On a book without ids the outline is built from exactly the chapter and section marks the extractor counts |
| BookOutline.FromMarksAt | crates/mycelium-librarian/src/extract.rs:189-219 | Chapter c of the outline is chapter mark c with its title, slug, and a section for each mark up to the next chapter |
| BookOutline.SameKind | crates/mycelium-librarian/src/extract.rs:122-133 | A line means the same to both readers, with and without its line terminator |
| BookTheorems.OutlineNames | crates/mycelium-librarian/src/extract.rs:189-219 | The outline has one chapter for each chapter mark, numbered from one |
| BookTheorems.ChapterResolves | crates/mycelium-librarian/src/extract.rs:349-354 | In a book where the extractor finds no id, each outline chapter's printed anchor, read back, gives the text from exactly its mark to the next chapter |
| BookTheorems.SectionResolves | crates/mycelium-librarian/src/extract.rs:359-369 | The same for each section, from its mark to the next mark |
| BookTheorems.BeyondChapters | crates/mycelium-core/src/library.rs:293-320 | A chapter number past the outline is AnchorNotFound |
| BookTheorems.BeyondSections | crates/mycelium-core/src/library.rs:335-394 | A section number past the outline is AnchorNotFound, naming the chapter or the section as the code does |
| BookTheorems.ChaptersTile | crates/mycelium-core/src/library.rs:293-320 | The uncapped chapters, one after the other, are the text from the first chapter on |
| BookTheorems.SectionsTile | crates/mycelium-core/src/library.rs:335-394 | A chapter is its opening followed by its sections, nothing lost or repeated |
| BookTheorems.BoundariesExact | crates/mycelium-core/src/library.rs:298-304 | The marks are exactly the heading lines with an even number of fence lines before them |
| BookTheorems.AnchoredForBoth | crates/mycelium-librarian/src/extract.rs:58-66 | An id the outline builder sees, the extractor sees: a book the extractor counts, the builder counts |
| BookCuts.ChapterCutIsPassage | crates/mycelium-core/src/library.rs:260-291 | In any book a chapter number gives exactly one stretch of the text: by id from the first heading that carries the number to the next chapter id, by count from mark to mark |
| BookCuts.SectionCutIsPassage | crates/mycelium-core/src/library.rs:324-333 | The same for a section: by id to the next heading of its level or above; a section no id names is counted, even in a book with ids |
| BookCuts.ChapterLeadsHome | crates/mycelium-core/src/library.rs:260-291 | In any book the outline counts, a chapter anchor opens exactly its own chapter if and only if the extractor finds no id at all, or the chapter's own heading is the first whose id carries its number and the next chapter id stands on the next chapter |
| BookCuts.SectionLeadsHome | crates/mycelium-core/src/library.rs:221-239 | A section anchor opens exactly its own section if and only if no id carries both its numbers, or its own heading is the first whose id does and the next heading of its level or above is the next mark |
| BookCuts.ChapterAnchorGives | crates/mycelium-core/src/library.rs:115-138 | What the printed anchor of a chapter gives in any book the outline counts, capped, or AnchorNotFound |
| BookCuts.SectionAnchorGives | crates/mycelium-core/src/library.rs:115-138 | The printed anchor of a listed section always resolves in a book the outline counts, to the stretch by id or else by count |
| BookExamples.Misdirected | crates/mycelium-core/src/library.rs:164-180 | A space behind an id: the outline counts two chapters, and the first one's anchor opens the second |
| BookSectionExamples.SectionMisdirected | crates/mycelium-core/src/library.rs:221-239 | The same for a section: the outline lists two, and the first one's anchor opens the second |
| BookExamples.HiddenIdExample | crates/mycelium-core/src/library.rs:164-180 | The book `# T {#}`: the outline lists one chapter, and its anchor is AnchorNotFound |
| BookAnchored.BuildAnchored | crates/mycelium-librarian/src/extract.rs:146-192 | The loops over ids, the grouping map and the stable sorts build the specified outline |
| BookAnchoredMeaning.ChapterExact | crates/mycelium-librarian/src/extract.rs:67-76 | An entry is a chapter exactly when its id is `ch-`, a number from one on, a dash and anything |
| BookAnchoredMeaning.SectionExact | crates/mycelium-librarian/src/extract.rs:78-109 | An entry is a section exactly when its id is `sec-`, a chapter number from one on, a dash, a number, a dash and anything |
| BookAnchoredMeaning.SortExact | crates/mycelium-librarian/src/extract.rs:186-192 | The sorts are stable: smaller numbers first, equal ones as they stood, none lost or doubled |
| BookAnchoredMeaning.OutlineExact | crates/mycelium-librarian/src/extract.rs:146-192 | The chapters listed are exactly the chapter headings, with their own titles and slugs, by number and then as they stand; the first of a number has exactly the section headings of that number, any later one none |
| BookAnchoredTheorems.OutlineComplete | crates/mycelium-librarian/src/extract.rs:155-190 | No heading whose id names a chapter is missing from the outline, which is in chapter order |
| BookAnchoredTheorems.OutlineSectionComplete | crates/mycelium-librarian/src/extract.rs:155-190 | No heading whose id names a section of a listed chapter is missing |
| BookAnchoredTheorems.AnchoredChapterResolves | crates/mycelium-core/src/library.rs:260-287 | With ids, each chapter of the outline resolves by its id, to exactly the stretch from the first heading that carries its number to the next chapter id, capped |
| BookAnchoredTheorems.AnchoredChapterOwn | crates/mycelium-core/src/library.rs:267-276 | That stretch starts at the chapter's own heading if and only if no earlier heading carries its number |
| BookExamples.SameNumber | crates/mycelium-core/src/library.rs:267-276 | Two chapters numbered one: the second one's own id opens the first |
| BookAnchoredTheorems.AnchoredSectionResolves | crates/mycelium-core/src/library.rs:221-239 | With ids, a listed section resolves exactly when its number is not zero, to exactly the stretch from the first heading with both its numbers to the next heading of its level or above, capped |
| BookAnchoredTheorems.AnchoredSectionOwn | crates/mycelium-core/src/library.rs:226-231 | That stretch starts at the section's own heading if and only if no earlier heading carries both numbers |
| BookExamples.ZeroSection | crates/mycelium-core/src/library.rs:221-239 | A section numbered zero: the outline lists it, and its anchor is AnchorNotFound |
| Search.InMemoryIndex.Add | crates/mycelium-core/src/search.rs:334-372 | Re-adding a document leaves the index of the corpus with that document replaced |
| Search.InMemoryIndex.Strip | crates/mycelium-core/src/search.rs:349-352 | The path leaves every posting list, empty lists go, every other count stays |
| Search.InMemoryIndex.CountTokens | crates/mycelium-core/src/search.rs:354-361 | The loop leaves each term's exact count for the path and changes no other |
| Search.IndexAll | crates/mycelium-core/src/search.rs:334-372 | After any sequence of adds the index is that of the latest version of each path |
| Search.IndexUnique | crates/mycelium-core/src/search.rs:343-361 | A corpus has exactly one index: nothing of the history or the order of adding shows in it |
| Search.PostingExact | crates/mycelium-core/src/search.rs:397-398 | A posting list is exactly the documents the term occurs in, so at most as long as the corpus |
| Search.CountsAddUp | crates/mycelium-core/src/search.rs:308-311 | A document's counts over all terms add up to its stored length |
| Search.HistoryNotIndexed | crates/mycelium-core/src/search.rs:122-131 | From a history heading on, the body does not reach the index |
| SearchWords.TokensAreWords | crates/mycelium-core/src/search.rs:89-95 | The tokens are exactly the runs of two or more ASCII letters and digits of the lowered text, in order, each as often as it stands there |
| SearchWords.FieldsSearched | crates/mycelium-core/src/search.rs:104-133 | The searched text is the title or path, the description, the tags and the body up to its first line `# History`, with one space between each two |
| SearchWords.FieldsIndexed | crates/mycelium-core/src/search.rs:104-133 | If lowering leaves a space alone, each field is indexed on its own: no word runs from one into the next |
| SearchMeaning.LatestExact | crates/mycelium-core/src/search.rs:334-372 | The corpus indexed is the last version of each path ever added |
| SearchQuery.RunSearch | crates/mycelium-core/src/search.rs:374-440 | The search returns the brute-force answer: the visible documents with a term, each with its summed score, best first, then by path; SearchMeaning.ShownExactly, RankedByScore and ResultScored say so of the documents themselves |
| SearchMeaning.ShownExactly | crates/mycelium-core/src/search.rs:22-27 | A document is in the answer exactly when a lowered term stands as a word in its lowered text and, unless all statuses are asked for, its status is neither `superseded` nor `retired` |
| SearchMeaning.RankedByScore | crates/mycelium-core/src/search.rs:430-439 | No document is listed twice; better scores come first, and of equal ones the path that comes first in dictionary order |
| SearchMeaning.ResultShows | crates/mycelium-core/src/search.rs:414-429 | A result shows the title, or the path without one, and the first 200 characters of the body without the white space around them |
| SearchMeaning.ResultScored | crates/mycelium-core/src/search.rs:386-413 | Its score is the contributions of the distinct lowered terms, added in any order |
| SearchMeaning.ContributionExact | crates/mycelium-core/src/search.rs:397-410 | A contribution counts all documents, those that hold the term, its occurrences and the words of this one |
| SearchMeaning.Bm25Exact | crates/mycelium-core/src/search.rs:275-298 | The contribution with its quotients cleared: ln((n + 1) / (df + 1/2)) times 2.2 tf / (tf + 0.3 + 0.9 length / average), or 1.2 for the last two terms without an average |
| SearchMeaning.ContributionGrows | crates/mycelium-core/src/search.rs:275-298 | More occurrences in a document no longer, of a term no more common, never score less |
| SearchMeaning.AverageExact | crates/mycelium-core/src/search.rs:376-383 | The average length times the number of documents is the sum of their lengths |
| SearchQuery.AnswerUnique | crates/mycelium-core/src/search.rs:430-439 | There is only one such answer, whatever order the maps are walked in |
| SearchQuery.ScoreTerms | crates/mycelium-core/src/search.rs:386-413 | The loop over terms, skipping repeats after lowercasing, accumulates the scan's scores |
| SearchQuery.AddPosting | crates/mycelium-core/src/search.rs:399-411 | One posting list adds its weight to exactly the documents the status filter shows: with active ones only, those SearchMeaning.ShownExactly does not call hidden |
| SearchQuery.ScoreNonNegative | crates/mycelium-core/src/search.rs:257-298 | With a logarithm that grows from zero at one, no document's score is negative |
| SearchQuery.Bm25Zero | crates/mycelium-core/src/search.rs:275-298 | A document without the term gets nothing from it |
| Conversation.FindUnitEnd | crates/mycelium-librarian/src/llm.rs:610-625 | The loop over tool results finds the end of the unit |
| Conversation.TrimConversation | crates/mycelium-librarian/src/llm.rs:642-680 | Listing and weighing all units and counting from the front equals dropping the oldest unit while the rest is over budget and it may go; the byte count never underflows |
| ConversationMeaning.TrimExact | crates/mycelium-librarian/src/llm.rs:610-680 | The trim drops whole units from the front up to the first from which everything is at most 384 003 bytes, which is the last one, or which holds the last user turn |
| ConversationMeaning.FitsExact | crates/mycelium-librarian/src/llm.rs:556-600 | What fits is measured on the concatenated bytes of everything the turns say |
| Conversation.DroppableMeans | crates/mycelium-librarian/src/llm.rs:659-668 | The code's droppable count allows exactly the units that are not the last one and do not hold the last user turn |
| ConversationTheorems.TrimMinimal | crates/mycelium-librarian/src/llm.rs:642-680 | The trim stops at the first unit boundary from which the rest fits or whose unit may not go, and keeps something |
| ConversationTheorems.TrimKeepsLastUser | crates/mycelium-librarian/src/llm.rs:628-641 | Nothing at or after the last user turn is ever dropped |
| ConversationTheorems.TrimNonEmpty | crates/mycelium-librarian/src/llm.rs:628-641 | A non-empty conversation stays non-empty |
| ConversationTheorems.TrimIdempotent | crates/mycelium-librarian/src/llm.rs:642-680 | Trimming twice is trimming once |
| ConversationTheorems.TrimPaired | crates/mycelium-librarian/src/llm.rs:603-609 | Trimming a paired conversation keeps each tool call with its results |
| Agent.BoundToolResult | crates/mycelium-librarian/src/llm.rs:566-578 | The byte walk-back cuts at the last character boundary within the cap |
| Agent.BoundedSize | crates/mycelium-librarian/src/llm.rs:566-578 | Of well-encoded text the result is not larger than before exactly when it fits, is at least 24 040 bytes long, or is 39, 38 or 37 bytes over and the cut moves back over enough continuation bytes |
| Agent.CutMayGrow | crates/mycelium-librarian/src/llm.rs:566-578 | A result one byte over the cap gets larger, against the comment on the estimator |
| Agent.Run | crates/mycelium-librarian/src/agent.rs:821-888 | The loop ends with the model's first text answer, a transport error or the step cap, with the conversation and the files AgentResults.RunRecorded describes |
| Agent.AnswerCalls | crates/mycelium-librarian/src/agent.rs:853-886 | One tool-call turn is pushed, then one result per call in order, errors included; AgentResults.BlockAnswered says what each result says |
| AgentResults.BlockAnswered | crates/mycelium-librarian/src/agent.rs:853-886 | After a call turn the j-th result is what the tool gives for the j-th call on all turns before it, or the error's JSON; the files grow by the paths those outcomes wrote, in order |
| AgentResults.RunRecorded | crates/mycelium-librarian/src/agent.rs:838-888 | Behind its start a run's conversation is the client's replies, each to exactly the turns before it, every one followed by the results of its calls; the files are the paths written by these outcomes, in order |
| AgentResults.RequestSent | crates/mycelium-librarian/src/llm.rs:440-460 | A request is the kept turns, each as it is but for results over 24 000 bytes, cut at the last character boundary there, with the note behind |
| AgentResults.MarkerSpelled | crates/mycelium-librarian/src/llm.rs:560 | The note, letter by letter |
| Agent.RequestsPaired | crates/mycelium-librarian/src/agent.rs:838-888 | Whatever model and tools answer, every request of every run pairs each tool call with exactly one result, in order, right after it |
| Agent.RunsUntrimmed | crates/mycelium-librarian/src/agent.rs:821-888 | A query or mutation run sends its whole conversation at every step |
| Agent.ChatKeepsLastMessage | crates/mycelium-librarian/src/agent.rs:733-775 | A chat never loses the last user message of its history, nor anything after it |
| SectionEdit.ReplaceSection | crates/mycelium-librarian/src/agent.rs:1443-1477 | The line loop with its two flags writes exactly the specified edit |
| SectionEditMeaning.ReplaceExact | crates/mycelium-librarian/src/agent.rs:1443-1477 | What is written is, line by line of the body: the heading and the new content for the heading, nothing for the rest of its section, any other line as it is; and the new section behind them all if the heading stands nowhere |
| SectionEditTheorems.EditKeepsOutside | crates/mycelium-librarian/src/agent.rs:1443-1477 | Every line outside the section is written, in order, whether the section was there or was appended |
| SectionEditTheorems.ReplaceTwice | crates/mycelium-librarian/src/agent.rs:1443-1477 | For a plain heading and content, editing twice equals editing once exactly when no line outside the section ends in a carriage return |
| SectionEditTheorems.ReplaceTwiceDiffers | crates/mycelium-librarian/src/agent.rs:1443-1477 | A body for which it does not |
| Links.MaskInlineCode | crates/mycelium-core/src/links.rs:57-105 | The nested loops blank the specified text |
| Links.MaskInlineExact | crates/mycelium-core/src/links.rs:53-105 | Masking a line keeps its length, blanks exactly its code spans and leaves no backtick |
| Links.SpansExact | crates/mycelium-core/src/links.rs:53-57 | The spans masked are code spans, in order and apart, and cover every backtick |
| Links.FindCloseMeans | crates/mycelium-core/src/links.rs:67-84 | A span closes at the next whole run of the same length, or at the end of the line if there is none |
| Links.MaskBody | crates/mycelium-core/src/links.rs:34-51 | The line loop masks fence lines, fenced lines and inline code |
| Links.MaskIdempotent | crates/mycelium-core/src/links.rs:34-51 | Masking twice is masking once |
| Links.Scan | crates/mycelium-core/src/links.rs:20-31 | The scan yields the markdown targets of the matches, left to right |
| LinksMeaning.ScanExact | crates/mycelium-core/src/links.rs:12-31 | The links taken are, from the left, all that do not open inside an earlier one; the scan gives the targets among them that end in `.md`, in order |
| LinksMeaning.MaskExact | crates/mycelium-core/src/links.rs:34-51 | The masked body is its lines one after the other: a fence line or fenced line as one space for each byte, any other with its code spans blanked |
| Links.ScanMasked | crates/mycelium-core/src/links.rs:20-31 | Scanning a masked body finds the links of the body |
| Links.MatchExact | crates/mycelium-core/src/links.rs:12-13 | The matcher finds exactly the pattern, stated without a scan |
| Links.LinkOutsideCode | crates/mycelium-core/src/links.rs:15-51 | No part of a scanned link but its text, which may run over lines, comes from a fence line, a fenced line or a code span |
| Graph.BuildGraph | crates/mycelium-core/src/graph.rs:71-132 | Edges, broken links and orphans are the strictly sorted lists of the specified sets, nodes the last concept of each path |
| GraphMeaning.EdgesExact | crates/mycelium-core/src/graph.rs:99-109 | An edge is a scanned link to the path of a concept, a broken link one to no concept's path |
| GraphMeaning.OrphansExact | crates/mycelium-core/src/graph.rs:106-129 | An orphan is a concept's path that no scanned link leaves or reaches |
| GraphMeaning.NodesExact | crates/mycelium-core/src/graph.rs:74-87 | There is a node for each path; it shows the title, or the path without one, and the kind of the last concept there |
| GraphMeaning.ListingsOrdered | crates/mycelium-core/src/graph.rs:111-129 | Edges and broken links are listed by where they start and then where they lead, orphans by path, in dictionary order and without repeats |
| Graph.EdgesApart | crates/mycelium-core/src/graph.rs:99-109 | No link is both an edge and broken, and together they are every scanned link |
| Graph.OrderIndependent | crates/mycelium-core/src/graph.rs:111-129 | The order of concepts does not show in edges, broken links or orphans |
| Graph.NodesIndependent | crates/mycelium-core/src/graph.rs:74-87 | Nor in the nodes, when paths are distinct |
| Graph.OrphanExact | crates/mycelium-core/src/graph.rs:106-129 | An orphan has no edge and no broken link of its own |
| Sorting.SortedUnique | crates/mycelium-core/src/graph.rs:111-129 | A set has one strictly sorted listing |
| Embeddings.OrderedVectors | crates/mycelium-librarian/src/embeddings.rs:223-261 | Succeeds exactly when the indices are each of 0..n once with usable vectors, and then places every vector at its index; an error names the first entry out of range or repeated, or without one the first index whose vector is missing, empty or not finite |
| Embeddings.FillSlots | crates/mycelium-librarian/src/embeddings.rs:224-238 | The slot loop fails exactly on an index out of range or repeated, naming the first such entry |
| Embeddings.ShuffleAccepted | crates/mycelium-librarian/src/embeddings.rs:223-261 | A response is accepted or refused in every order alike |
| Embeddings.ShuffleReadsSame | crates/mycelium-librarian/src/embeddings.rs:223-261 | Every order of an accepted response reads back to the same vectors |
| Embeddings.EmbedBatch | crates/mycelium-librarian/src/embeddings.rs:326-373 | Succeeds exactly on no input, or a permutation within the dimension cap; one vector per input. An error says what the reply was, or what is wrong with it |
| VectorMeaning.SucceedsExact | crates/mycelium-librarian/src/embeddings.rs:223-261 | A reply succeeds exactly when it has, for each input, one entry with 1 to 4096 finite numbers, and no other entry |
| VectorMeaning.InputsExact | crates/mycelium-librarian/src/embeddings.rs:326-333 | A request sends the first 24 000 characters of each pair's own text, in the order of the pairs |
| VectorWorker.TryBatch | crates/mycelium-librarian/src/vector_worker.rs:435-448 | At most three attempts, the first success wins, none follows a red check, and it gives up early only on one |
| VectorWorker.UpsertBatch | crates/mycelium-librarian/src/vector_worker.rs:460-480 | Every pair of a batch that came back is tried with its own vector, the short-batch branch being dead; stored are exactly the rows the store takes |
| VectorWorker.EmbedAndUpsert | crates/mycelium-librarian/src/vector_worker.rs:405-482 | The drain, told batch by batch: each batch begins where and when the one before ended, behind a check that is not red, with the requests and upserts the environment answers; from the first red check before a batch on everything is parked. Parked paths and stored rows come in input order, a write is reported exactly when a row was stored, a red backend is not asked at all and a healthy one parks nothing |
| VectorWorker.FateRequested | crates/mycelium-librarian/src/vector_worker.rs:431-479 | Every row tried carries the vector that a request of this drain, sent for a batch with its text, brought for that text; it is tried after that request and before any later one |
| VectorWorker.LogAscends | crates/mycelium-librarian/src/vector_worker.rs:431-448 | The requests of a drain are sent one after the other |
| VectorMeaning.DrainKeeps | crates/mycelium-librarian/src/vector_worker.rs:405-482 | The rows stored are exactly those of the pairs whose row was tried and taken, the paths parked those of the pairs never tried, both in the order of the pairs |
| VectorMeaning.AttemptsExact | crates/mycelium-librarian/src/vector_worker.rs:435-448 | A batch asks at most three times, and gives up earlier only on a red check |
| VectorWorker.RowsInOrder | crates/mycelium-librarian/src/vector_worker.rs:463-479 | Rows are tried one after the other, in the order of the pairs |
| VectorWorker.NothingLost | crates/mycelium-librarian/src/vector_worker.rs:463-482 | Stored and parked together are the input exactly when no row tried was refused by the store: a refused one is neither |
| VectorWorker.LoseRows | crates/mycelium-librarian/src/vector_worker.rs:473-477 | A drain that loses rows: the backend well, the store refusing, nothing is parked and nothing stored |
| Fallback.MakeSlug | crates/mycelium-librarian/src/fallback.rs:226-239 | The loop with its flag computes the slug |
| FallbackMeaning.SlugExact | crates/mycelium-librarian/src/fallback.rs:226-239 | A slug is the runs of ASCII letters and digits in the first 64 characters, lowered, with a dash between each two |
| FallbackMeaning.SlugUnique | crates/mycelium-librarian/src/fallback.rs:226-239 | There is only one such slug |
| FallbackMeaning.TitleExact | crates/mycelium-librarian/src/fallback.rs:216-224 | The title is up to 80 characters of the first line that is not all white space, without the white space around them, or `untitled` |
| FallbackMeaning.HintExact | crates/mycelium-librarian/src/fallback.rs:206-214 | A path hint is slugged part by part, parts without a slug left out |
| TextMeaning.SplitOnExact | crates/mycelium-librarian/src/fallback.rs:206-214 | The parts joined by the separator are the text, and none holds the separator |
| FallbackMeaning.PathExact | crates/mycelium-librarian/src/fallback.rs:192-203 | The path is a slash, the shelf's slug and a slash if it has one, the hint's slugs or, without any, the title's slug, and `.md` |
| FallbackMeaning.CandidateExact | crates/mycelium-librarian/src/fallback.rs:36-50 | From the second on, a path tried is the derived one with a dash and its number in front of the extension |
| FallbackMeaning.KindExact | crates/mycelium-librarian/src/fallback.rs:24-34 | The kind is the one asked for without the white space around it, or `Note` if none or only white space is given |
| Fallback.SlugShape | crates/mycelium-librarian/src/fallback.rs:226-239 | A slug is at most 64 lowercase letters, digits and single dashes, none at an end |
| Fallback.SlugIdempotent | crates/mycelium-librarian/src/fallback.rs:226-239 | A slug is its own slug |
| Fallback.CandidatesDistinct | crates/mycelium-librarian/src/fallback.rs:36-50 | No candidate path is tried twice |
| Fallback.DerivedTrim | crates/mycelium-librarian/src/fallback.rs:192-203 | Trimming the extension off a derived path takes exactly the extension |
| Fallback.FindPath | crates/mycelium-librarian/src/fallback.rs:36-50 | In any store the search ends, at the first candidate that is free, holds the content, or cannot be read |
| Fallback.TriesBounded | crates/mycelium-librarian/src/fallback.rs:36-50 | The search fails at most once for each concept in the store |
| Fallback.DirectWriteAdd | crates/mycelium-librarian/src/fallback.rs:18-66 | Ends at the first candidate that is free or holds the content and writes that one path, or nothing on a fault |
| Fallback.AddKeepsBodies | crates/mycelium-librarian/src/fallback.rs:36-66 | No existing concept's trimmed body changes, and no concept at all but the one at the path returned |
| Fallback.AddAgain | crates/mycelium-librarian/src/fallback.rs:36-66 | A second add of the same content, with other writes in between, ends where the first did exactly when these neither freed nor gave the content to a path tried before, nor put other content at that path; the store does not grow then |
| Fallback.AddTwice | crates/mycelium-librarian/src/fallback.rs:36-66 | With nothing in between, the second add returns what the first did and changes nothing more |
| Fallback.DirectWriteTwice | crates/mycelium-librarian/src/fallback.rs:18-66 | Two adds with the same arguments: the same result, at most one new path, every other concept and every trimmed body as it was |

## Left out

- Users.AnnouncedKeyAlwaysWorks: says exactly when the announced recovery key keeps working, because the code does not keep it working always.
- BookTheorems.ChapterResolves: asks that the extractor finds no id in the book; BookCuts.ChapterLeadsHome covers every book the outline counts, and BookAnchoredTheorems.AnchoredChapterResolves the others.
- BookAnchoredTheorems.AnchoredChapterResolves: gives the passage of the first heading with the chapter's number, which is another chapter's if two share it, because the code matches by number.
- SectionEditTheorems.ReplaceTwice: asks for a heading that is one trimmed line and content that opens no section, as the edit's callers send.
- Agent.Run: traces, progress events and the system prompt are not modelled.
- Fallback.DirectWriteAdd: timestamps and the hot-memory hook are not modelled, and the store is a map that returns what was put.
- Fallback.AddAgain: which paths cannot be read is the same for both adds.
- SearchQuery.RunSearch: floats are reals, so rounding, NaN and ties made by rounding do not appear.
- Ids and totals of the gate are unbounded numbers; the u64 and u32 counters of the program would wrap only after that many events. The same goes for chapter counts, term counts and collision suffixes.
- Wait durations, tokio's scheduling and the oneshot implementation: a bound that elapses and a future that is dropped are steps that may happen at any moment.
- Text offsets count characters where the program counts bytes; every slice is cut at a line start or a matched character, so both cut the same text.
- Real cryptography, hex and JSON encodings, usernames' lookup, roles and timestamps of an account row.
- Slugs of book headings (Unicode letters) are a parameter of the outline; no theorem about anchors depends on them.
- `rrf_fuse`, `cosine` and vector ranking: sums over ranks and floats that would only add easy members.
- The regular-expression engine: the one link pattern is matched directly.
- `dated_addendum_update` and `wire_and_flag_maintain` of the fallbacks, the queue and row lifecycle of the ingest and vector workers, the SQL store: their state lives in a crate this model does not cover.
- Health probes, throttling, configuration clamps, sessions, API keys, roles, HTTP, OIDC, WebAuthn, the CLI and prompts: small lookups or outside services.
