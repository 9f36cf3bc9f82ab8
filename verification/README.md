# SockFuzzer: a verified model

SockFuzzer runs the XNU kernel as a library under a cooperative scheduler and
drives it with generated syscalls. This project models the parts of it that are
easy to get wrong and proves what they are there for.

Three groups of code are modelled.

1. The syscall-definition compiler (`tools/generate_syscall`, Python).
   `SyscallSyntax`, `SyscallParser`, `SyscallRoundTrip` and `SyscallErrors` hold
   the tokenizer, the recursive-descent parser and the printers, from characters
   up. `CallerCodegen`, `CallerScope`, `CallerRun` and `CallerArguments` hold the
   code generator, whose output is a small statement language with a scope check
   and a semantics.
   `UpstreamFilter` reads the kernel's list of syscalls in two passes and is set
   against a preprocessor; `ProtoOrder` writes the proto file.
2. The thread and lock protocols (`fuzz/host`, `fuzz/xnu/osfmk`, C and C++).
   `InheritorSleep` is a step machine over any number of threads, events, locks
   and hash buckets; `TicketLock` and `HostThreads` are step machines with a class
   whose methods are proved to make those steps; `LockSleep` has the lock-sleep
   functions under arbitrary interference.
3. Allocator and layout code. `ZoneGeometry` and `ZoneTable` (zone chunks and zone
   IDs), `ZoneCache` (batches), `MachMessage`, `PointerNames` and `HeaderPruning`.

`dafny verify dfyconfig.toml` checks everything.

## How the model stands to the code

Loops and updates of the source are methods and classes; each is proved equal to
a functional specification, and the properties are lemmas about that. Memory,
the scheduler's choices, random draws and the other threads are parameters or
nondeterministic, so a theorem holds for all of them.

- A virtual mutex is an optional owner with waiters, a read-write lock is readers
  or one writer, a turnstile is a bucket lock with a wait set, and the scheduler is
  a set of runnable threads from which any may be picked. A thread switch happens
  only where the source yields, blocks or waits for a lock. These stand for the
  classes in `third_party/concurrence`, and for turnstiles, which are not part of
  the repository.
- A step machine's `Allowed` predicate says what the kernel keeps to: ticket locks
  are allocated at addresses not in use and not destroyed with a `Lock` call in
  flight, except synchronously after an invalidation; only mapped threads are
  named; a wait with a report is not ended by clearing two flags.

Where the code does not do what one would expect, the model follows the code, and
the lemma says exactly when it does.

- A printed definition is read back as itself exactly when attribute names are no
  field classes, nested types are, integers are not negative, and strings are words
  that `int()` does not accept, or one punctuation character
  (`SyscallRoundTrip.RoundTrip`). The printers write strings bare, so strings with
  a space and negative integers do not survive; written in double quotes, as in
  the definitions file, every string survives that holds no quote and that `int()`
  does not accept, and every integer does (`SyscallRoundTrip.QuotedRoundTrip`).
- A sized array behind a pointer is set up in the first pass, so the block is well
  formed exactly if such an array comes before its size in the argument list
  (`CallerScope.CallerIsWellFormed`, `CallerScope.PointedArrayTooLate`).
- A thread that is woken while it runs, then marks a wait and blocks, can be picked
  while it still waits, which aborts a debug build (`HostThreads.BlockAborts`,
  `HostThreads.WokenWhileRunning`).
- Resuming a thread overwrites the result of its wait, so a timeout or an
  interruption given to ThreadWakeup never reaches a caller of ThreadBlock that
  waits when it blocks (`HostThreads.BlockReturns`, `HostThreads.TimeoutIsLost`).
- The release of a virtual lock makes its waiters runnable while they are still
  marked as waiting (`HostThreads.AlwaysWaitingOrRunnable`).
- The number passed beside a sized vector is its length exactly if a cast on the
  size field keeps the number (`CallerArguments.CallerSizesItsArrays`). What is passed for
  the size of another argument is the length of its bytes only for buffers and
  socket addresses; for an array it is the pointer to its data
  (`CallerArguments.SizesAreLengths`).
- `Lock` on an invalidated ticket lock reports ACQUIRED without giving ownership
  unless the caller allows invalid locks (`TicketLock.LockAtOnce`).
- The reader of the kernel's list refuses an `#if` without `#else`, accepts an
  `#endif` that closes nothing, takes an `#ifndef` for an `#if`, and forgets the
  outer block after a nested one
  (`UpstreamFilter.ReadsIff`, `UpstreamFilter.SameThroughoutIff`,
  `UpstreamFilter.KeepSameIff`, `UpstreamFilter.IfndefDiffers`,
  `UpstreamFilter.NestedBlockLeaks`).
- Definitions that share a number come out in the order of the list
  (`ProtoOrder.OrderIndependentIff`).
- A push for which the stack cannot grow loses its element, and undoing a batch
  frees elements without marking them invalid (`ZoneCache.BatchThenFree`,
  `ZoneCache.AllocN`).
- A read-only zone is one page whatever its elements (`ZoneGeometry.ReadOnlyHolds`).
- With "." in the include list a folder written "./x" is not expanded
  (`HeaderPruning.CoveredIff`, `HeaderPruning.DotShadows`).

## Model

| member | source | states |
|---|---|---|
| `SyscallSyntax.Tokenize` | tools/generate_syscall/downstream_syscall_parser.py:148-164 | the loop yields exactly the classified lexemes of the text, for every text |
| `SyscallParser.TypeOf` | tools/generate_syscall/downstream_syscall_parser.py:167-175 | terminates on every token list; a success uses at least one token and leaves a suffix |
| `SyscallParser.BracketOf` | tools/generate_syscall/downstream_syscall_parser.py:178-190 | terminates on every token list and leaves a suffix of it |
| `SyscallParser.TypeArgOf` | tools/generate_syscall/downstream_syscall_parser.py:215-231 | a success uses at least three tokens and leaves a suffix |
| `SyscallParser.ValueOf` | tools/generate_syscall/downstream_syscall_parser.py:193-212 | a success uses at least one token and leaves a suffix |
| `SyscallParser.ParseType` | tools/generate_syscall/downstream_syscall_parser.py:167-175 | popping from the shared list gives the tree, the exception and the remaining tokens of the specification |
| `SyscallParser.ParseTypeArgs` | tools/generate_syscall/downstream_syscall_parser.py:178-190 | the bracket loop agrees with its specification, a missing closing bracket and optional commas included |
| `SyscallParser.ParseTypeArg` | tools/generate_syscall/downstream_syscall_parser.py:215-231 | agrees with its specification, with the same exception in every failing case |
| `SyscallParser.ParseValue` | tools/generate_syscall/downstream_syscall_parser.py:193-212 | agrees with its specification for types, quoted text, integers and words |
| `SyscallParser.ParseArguments` | tools/generate_syscall/downstream_syscall_parser.py:237-251 | the argument loop agrees with its specification |
| `SyscallParser.Parse` | tools/generate_syscall/downstream_syscall_parser.py:234-251 | the whole parser gives the definition or the exception that the specification gives, for every text |
| `SyscallErrors.FailureIs` | tools/generate_syscall/downstream_syscall_parser.py:167-251 | a failing parse raises an IndexError if and only if more tokens could still make a definition of those there, otherwise a ValueError |
| `SyscallRoundTrip.PrintedIntegerReads` | tools/generate_syscall/downstream_syscall_parser.py:208-212 | the decimal text of every natural number is a word and reads as that number |
| `SyscallRoundTrip.DefText` | tools/generate_syscall/downstream_syscall_parser.py:57-121 | the tokenizer finds in the printed text of a definition exactly the tokens of its tree |
| `SyscallRoundTrip.CommasAreOptional` | tools/generate_syscall/downstream_syscall_parser.py:178-190 | dropping any of the separating commas from the tokens of a definition, and the closing parenthesis, does not change what is parsed |
| `SyscallRoundTrip.LastBracketIsOptional` | tools/generate_syscall/downstream_syscall_parser.py:178-190 | a type at the end of the tokens is read the same with and without its closing bracket |
| `SyscallRoundTrip.QuotedValueReads` | tools/generate_syscall/downstream_syscall_parser.py:193-212 | every text without a quote, put in quotes, is read as that text, spaces and punctuation included, or as the integer it denotes |
| `SyscallRoundTrip.QuotedOfJoins` | tools/generate_syscall/downstream_syscall_parser.py:197-206 | after a quote token the values up to the next one are joined, and without one it is a ValueError |
| `SyscallRoundTrip.IntegerReads` | tools/generate_syscall/downstream_syscall_parser.py:208-212 | spaces, a sign or none and digits with underscores between them read as the number of the digits, negated after a minus |
| `SyscallRoundTrip.OnlyIntegersRead` | tools/generate_syscall/downstream_syscall_parser.py:208-212 | no other text reads as an integer |
| `SyscallRoundTrip.SignedIntegerReads` | tools/generate_syscall/downstream_syscall_parser.py:208-212 | the text of every integer, negative ones included, reads as that integer |
| `SyscallRoundTrip.QuotedRoundTrip` | tools/generate_syscall/downstream_syscall_parser.py:57-121 | for every definition whose names are words, printing with quotes around its string values and negative integers and then parsing gives it back if and only if its attributes and nested types are good and no string value holds a quote or reads as an integer |
| `SyscallRoundTrip.ParsedIsQuotable` | tools/generate_syscall/downstream_syscall_parser.py:193-251 | whatever is parsed, from any text, is one of the definitions that survive in quotes |
| `SyscallRoundTrip.ParsedIsGood` | tools/generate_syscall/downstream_syscall_parser.py:193-251 | whatever is parsed from a text without quotes is one of the definitions that survive printing |
| `SyscallRoundTrip.RoundTrip` | tools/generate_syscall/downstream_syscall_parser.py:57-121 | for every definition whose names are words, and any values, printing and then parsing gives it back if and only if its attributes, nested types, integers and strings are of the kinds named above |
| `CallerCodegen.FieldByName` | tools/generate_syscall/downstream_syscall.py:35-39 | the first field of that name, or a KeyError, which means there is none |
| `CallerCodegen.GeneratePass` | tools/generate_syscall/downstream_syscall.py:99-105 | one reversed loop yields the setups of its pass in order, or the first error |
| `CallerCodegen.GenerateCallerArgs` | tools/generate_syscall/downstream_syscall.py:82-89 | one argument per field, in order, with its cast, or the first error |
| `CallerCodegen.GenerateCallerBlock` | tools/generate_syscall/downstream_syscall.py:96-111 | the two passes and the call make the specified block or its error |
| `CallerScope.CallerIsWellFormed` | tools/generate_syscall/downstream_syscall.py:82-111 | with distinct names and capped sizes, every name is declared once and before use and every accessor is in the proto message, if and only if each sized array behind a pointer precedes its size |
| `CallerScope.PointedArrayTooLate` | tools/generate_syscall/downstream_field.py:145-161 | a count followed by a pointer to the array it sizes gives a block that uses the count before declaring it |
| `CallerScope.BlockFails` | tools/generate_syscall/downstream_field.py:188-208 | where no size is the size of a size, the block is generated if and only if every array has a size that is there and capped and every `SizeOf` its container; otherwise the error is that of the first failing setup in the order of the two passes, or else of a `SizeOf` |
| `CallerScope.OwnSizeNeverEnds` | tools/generate_syscall/downstream_field.py:250-272 | a `SizeOf` of itself is never resolved, however deep the recursion may go |
| `CallerScope.ProtoListNames` | tools/generate_syscall/downstream_syscall.py:54-64 | the message declares exactly the names the caller may read, without repetition |
| `CallerScope.ProtoListOrder` | tools/generate_syscall/downstream_syscall.py:54-64 | the entry of a field comes right after the entries of the fields before it |
| `CallerScope.ProtoMessageBody` | tools/generate_syscall/downstream_syscall.py:54-64 | the entries are those names in order, numbered from one without gaps |
| `CallerArguments.CallerSizesItsArrays` | tools/generate_syscall/downstream_field.py:188-208 | on every message the block runs to its call; each sized vector is as long as its size field says, reduced below the cap; what is passed for that field, under exactly the field's own pointers, is this number as the field's cast shows it, and equals the length if and only if there is no cast or the cast keeps the number |
| `CallerArguments.SizesAreLengths` | tools/generate_syscall/downstream_field.py:250-272 | on every message what is passed for a `SizeOf`, under exactly its own pointers and cast, is the length of the bytes passed for its container if and only if the container is a buffer without a cap or a socket address; for an array it is the pointer to its data |
| `CallerArguments.ArgumentsArePassed` | tools/generate_syscall/downstream_field.py:145-161 | on every message each argument is exactly as many pointers deep as its field has `Ptr` around its target, with the field's cast; under them a literal is its text, a scalar, flags or declared field its variable, a struct its address, an array, buffer or socket address its data, and a `SizeOf` the size of its container |
| `CallerArguments.EveryFieldIsRead` | tools/generate_syscall/downstream_syscall.py:54-111 | the block reads exactly the fields that the proto message declares |
| `UpstreamFilter.ParseSyscalls` | tools/generate_syscall/upstream_syscall_manager.py:41-82 | the line loop gives the tagged entries, or the first exception, that the specification gives |
| `UpstreamFilter.ReadsLine` | tools/generate_syscall/upstream_syscall_manager.py:52-79 | whatever the spaces around it, a comment or include is skipped, `#else` and `#endif` are read as such, and a line that starts with no directive is an entry with its text |
| `UpstreamFilter.ReadsIf` | tools/generate_syscall/upstream_syscall_manager.py:63-66 | an `#if` in any spelling, spaces and a word are read as that word, negated exactly for `#ifndef` |
| `UpstreamFilter.ReadsBareIf` | tools/generate_syscall/upstream_syscall_manager.py:63-66 | an `#if` without a word after it is the IndexError |
| `UpstreamFilter.FirstBadLine` | tools/generate_syscall/upstream_syscall_manager.py:52-79 | reading stops at the first line that is out of place or does not parse, with the exception of that line |
| `UpstreamFilter.EntryTags` | tools/generate_syscall/upstream_syscall_manager.py:63-79 | in every accepted file, nested or not, an entry must have the flag of the `#if` that is the last directive before it, and must not have the flag of the `#if` before the last `#else` unless an `#endif` came since |
| `UpstreamFilter.FilterSyscalls` | tools/generate_syscall/upstream_syscall_manager.py:85-99 | keeps in order the entries whose name is not deleted and whose flags the defined flags admit |
| `UpstreamFilter.SyscallsFrom` | tools/generate_syscall/upstream_syscall_manager.py:112-125 | for a file of flat blocks without `#ifndef`, parsing and filtering give what the preprocessor keeps, parsed, without the deleted names and in order |
| `UpstreamFilter.FilterIsPreprocess` | tools/generate_syscall/upstream_syscall_manager.py:47-99 | the same for every such file from any place in it, with success exactly when every entry parses |
| `UpstreamFilter.ReadsIff` | tools/generate_syscall/upstream_syscall_manager.py:67-77 | a file is read without exception if and only if its entries parse, every `#if` has a flag, every `#else` directly follows an `#if` and no `#endif` does |
| `UpstreamFilter.SameThroughoutIff` | tools/generate_syscall/upstream_syscall_manager.py:47-77 | in a balanced accepted file the two flags mean at every line, for all flag sets, what the open blocks mean if and only if blocks do not nest and none is an `#ifndef` |
| `UpstreamFilter.IfndefDiffers` | tools/generate_syscall/upstream_syscall_manager.py:63-66 | inside an `#ifndef` the flag that reading carries does not mean what the block means |
| `UpstreamFilter.KeepSameIff` | tools/generate_syscall/upstream_syscall_manager.py:79-99 | in a balanced accepted file, nested or not, the two passes and the preprocessor keep the same entries for all flag sets if and only if at each entry the two flags mean what the open blocks mean |
| `UpstreamFilter.SameMeaningIff` | tools/generate_syscall/upstream_syscall_manager.py:92-97 | the two flags mean what the open blocks mean if and only if the same flags are wanted and unwanted, or both ask for the impossible |
| `UpstreamFilter.SameEntriesSameResult` | tools/generate_syscall/upstream_syscall_manager.py:112-122 | in such a file parsing and filtering give what the preprocessor and the entry parser give |
| `UpstreamFilter.NestedBlockLeaks` | tools/generate_syscall/upstream_syscall_manager.py:63-77 | a nested file whose entry the preprocessor drops and the two passes keep |
| `ProtoOrder.BuildIndex` | tools/generate_syscall/upstream_syscall_manager.py:107-110 | the index has every name, with the last entry of that name |
| `ProtoOrder.LookUp` | tools/generate_syscall/downstream_syscall_manager.py:74-81 | counts the names without an entry, and finds every other number |
| `ProtoOrder.WriteProtos` | tools/generate_syscall/downstream_syscall_manager.py:74-117 | the loops give the specified file or error |
| `ProtoOrder.SortOrders` | tools/generate_syscall/downstream_syscall_manager.py:91-93 | the sorted list is in order of number and a permutation of the definitions |
| `ProtoOrder.SortStable` | tools/generate_syscall/downstream_syscall_manager.py:91-93 | definitions of one number keep their order |
| `ProtoOrder.OrderIndependent` | tools/generate_syscall/downstream_syscall_manager.py:83-117 | where a name is missing or each number stands for one definition, all permutations give the same file or the same error |
| `ProtoOrder.OrderIndependentIff` | tools/generate_syscall/downstream_syscall_manager.py:91-104 | a list whose messages can all be generated gives the same file or error in every order if and only if a name is missing or each number stands for one definition |
| `ProtoOrder.FieldNumbers` | tools/generate_syscall/downstream_syscall_manager.py:94-104 | the oneof fields are the names and numbers of a permutation of the definitions, numbers never fall, and they rise strictly if and only if no number is used twice |
| `ProtoOrder.FailsIff` | tools/generate_syscall/downstream_syscall_manager.py:83-89 | the lookup error is raised if and only if some name has no entry in the kernel's list, and counts the definitions without one |
| `ProtoOrder.FileIs` | tools/generate_syscall/downstream_syscall_manager.py:91-117 | the file holds, for each definition and in an order of rising numbers, its message and its field with the number that the kernel's list has last for its name |
| `ProtoOrder.RenderFails` | tools/generate_syscall/downstream_syscall_manager.py:94-108 | where no name is missing, writing fails if and only if a message cannot be generated, and names the first such definition in the order of numbers |
| `ProtoOrder.LastNamedIs` | tools/generate_syscall/upstream_syscall_manager.py:107-110 | the entry found for a name is the one that no later entry of that name follows |
| `InheritorSleep.StepKeepsInv` | fuzz/xnu/osfmk/fakes/locks.c:118-171 | every step of every thread keeps which locks and queues each thread is on at its program point |
| `InheritorSleep.RunInv` | fuzz/xnu/osfmk/fakes/locks.c:118-171 | that invariant holds in every state of every run |
| `InheritorSleep.BucketDiscipline` | fuzz/xnu/osfmk/fakes/locks.c:156-164 | in every run the bucket lock is held at the completion of the turnstile and free outside and while blocked, when the primitive lock is not held either |
| `InheritorSleep.ReturnsAsAsked` | fuzz/xnu/osfmk/fakes/locks.c:225-242 | a sleep returns holding the primitive lock if and only if it was asked to |
| `InheritorSleep.HeldUpOnlyBy` | fuzz/xnu/osfmk/fakes/locks.c:429-514 | exactly when a thread cannot go on inside the two functions; the holder of a bucket lock always can |
| `InheritorSleep.NoLostWakeup` | fuzz/xnu/osfmk/fakes/locks.c:127-149 | if another thread takes the primitive lock after a sleeper began and then wakes waiters of the event, all or one, the sleeper has asserted its wait before that wakeup, which put it on the queue unless it was interrupted; it is still there if and only if no deadline, abort or other wakeup has ended its wait since; a wakeup of all then wakes it, and a wakeup of one does if it waits alone; it leaves the queue exactly if it is among those woken, and does not wait again |
| `InheritorSleep.WakesOne` | fuzz/xnu/osfmk/fakes/locks.c:445-481 | a wakeup of one takes exactly one waiter of its event off the queue, the thread it counts as woken, and changes nothing else; without a waiter the queue is as it was; it goes straight to completion if and only if it woke a thread and keeps the push |
| `InheritorSleep.WakesTheOnlyWaiter` | fuzz/xnu/osfmk/fakes/locks.c:445-481 | a thread that waits alone for an event is woken by any wakeup of it |
| `InheritorSleep.WhenBucketIsDropped` | fuzz/xnu/osfmk/fakes/locks.c:500-506 | in every run the waker holds the bucket lock when it wakes, and keeps it up to the completion if and only if it woke one thread without transferring the push |
| `InheritorSleep.BucketStep` | fuzz/xnu/osfmk/fakes/locks.c:500-512 | each unlocking step of a waker or a sleeper leaves its bucket lock free |
| `InheritorSleep.StageByStage` | fuzz/xnu/osfmk/fakes/locks.c:429-514 | a wakeup goes through its stages in order, keeps whom it has woken, and returns only from the last |
| `InheritorSleep.WakeCompletes` | fuzz/xnu/osfmk/fakes/locks.c:506-513 | in every run a wakeup on its way out has completed the turnstile with the bucket lock held |
| `InheritorSleep.SleepReturnsFrom` | fuzz/xnu/osfmk/fakes/locks.c:118-171 | a sleep returns only from its last step |
| `InheritorSleep.StaysQueued` | fuzz/xnu/osfmk/fakes/locks.c:146-158 | only a deadline, an abort or a wakeup that counts the thread takes it off the queue |
| `TicketLock.StepKeepsInv` | fuzz/host/hw_ticket_lock_manager.cc:39-160 | every allowed step keeps the lock tables, mutexes and blocked calls consistent |
| `TicketLock.PointersStayGood` | fuzz/host/hw_ticket_lock_manager.cc:150-160 | in every run live and invalidated locks are disjoint, no step follows a freed mutex and `Held` does not abort |
| `TicketLock.NobodyGainsInvalidated` | fuzz/host/hw_ticket_lock_manager.cc:45-49 | from an invalidation to the next allocation every step leaves the owner or takes the lock away, so once free it stays free, also for the holder at the invalidation |
| `TicketLock.BlockedCall` | fuzz/host/hw_ticket_lock_manager.cc:101-109 | while a call is blocked its lock stays registered, and is live exactly until someone invalidates it |
| `TicketLock.LockReturns` | fuzz/host/hw_ticket_lock_manager.cc:106-119 | a blocked call reports ACQUIRED if and only if nobody invalidated the lock meanwhile, and then owns the valid lock; otherwise INVALID, having given it back |
| `TicketLock.LockAtOnce` | fuzz/host/hw_ticket_lock_manager.cc:88-119 | what a call that does not block reports, in all cases |
| `TicketLock.FreedWithoutWaiters` | fuzz/host/hw_ticket_lock_manager.cc:51-82 | when a mutex is freed nobody is blocked on it |
| `TicketLock.UnlockReleases` | fuzz/host/hw_ticket_lock_manager.cc:130-148 | in every run unlocking a registered lock leaves it without owner if the caller owned it and as it was otherwise; its waiters, the tables, the calls and all other locks are unchanged |
| `TicketLock.UnlockLetsIn` | fuzz/host/hw_ticket_lock_manager.cc:106-148 | after the owner unlocks, a call blocked on the lock returns as soon as it is resumed if nobody has taken the lock in between |
| `TicketLock.TryLockAnswers` | fuzz/host/hw_ticket_lock_manager.cc:121-128 | succeeds if and only if the lock is live and free, and then gives it to the caller; aborts if and only if the caller owns the live lock; otherwise changes nothing |
| `TicketLock.HeldAnswers` | fuzz/host/hw_ticket_lock_manager.cc:150-160 | in every run the answer is whether the caller owns the lock while it is live, and nothing changes |
| `TicketLock.LockWaits` | fuzz/host/hw_ticket_lock_manager.cc:106-119 | a call blocks if and only if the lock is live and another thread owns it, and then joins its waiters; it aborts if and only if the caller owns the live lock |
| `TicketLock.ResumedLock` | fuzz/host/hw_ticket_lock_manager.cc:109-119 | a resumed call returns if and only if nobody owns the lock, and leaves its waiters; otherwise nothing changes |
| `TicketLock.Allocated` | fuzz/host/hw_ticket_lock_manager.cc:39-43 | a new lock is live, without owner and without waiters |
| `TicketLock.Invalidated` | fuzz/host/hw_ticket_lock_manager.cc:45-49 | an invalidated lock is no longer live and keeps its owner and its waiters |
| `TicketLock.Destroyed` | fuzz/host/hw_ticket_lock_manager.cc:51-82 | a destruction waits if and only if it is synchronous and the lock is invalidated and has waiters, giving the lock up meanwhile if the caller owns it; otherwise nothing is left of the lock |
| `TicketLock.ResumedDestroy` | fuzz/host/hw_ticket_lock_manager.cc:51-82 | it goes on if and only if no waiter is left, and then nothing is left of the lock |
| `TicketLock.StepTouches` | fuzz/host/hw_ticket_lock_manager.cc:39-160 | no step changes a lock other than the one it is about |
| `TicketLock.HwTicketLockManager.Allocate` | fuzz/host/hw_ticket_lock_manager.cc:39-43 | makes the allocation step |
| `TicketLock.HwTicketLockManager.Invalidate` | fuzz/host/hw_ticket_lock_manager.cc:45-49 | makes the invalidation step |
| `TicketLock.HwTicketLockManager.Destroy` | fuzz/host/hw_ticket_lock_manager.cc:51-65 | makes the destruction step, up to the yield for the waiters of an invalidated lock |
| `TicketLock.HwTicketLockManager.DestroyAgain` | fuzz/host/hw_ticket_lock_manager.cc:78-82 | goes on after that yield |
| `TicketLock.HwTicketLockManager.Lock` | fuzz/host/hw_ticket_lock_manager.cc:88-119 | makes the locking step, up to where the caller blocks |
| `TicketLock.HwTicketLockManager.LockAgain` | fuzz/host/hw_ticket_lock_manager.cc:109-119 | goes on after the caller was woken |
| `TicketLock.HwTicketLockManager.TryLock` | fuzz/host/hw_ticket_lock_manager.cc:121-128 | makes the trying step |
| `TicketLock.HwTicketLockManager.Unlock` | fuzz/host/hw_ticket_lock_manager.cc:130-148 | makes the unlocking step |
| `TicketLock.HwTicketLockManager.Held` | fuzz/host/hw_ticket_lock_manager.cc:150-160 | gives the answer or the abort of the specification |
| `HostThreads.StepKeepsSchedInv` | fuzz/host/host.cc:425-494 | marking a wait, waking, yielding and blocking keep every switched-out thread exactly one of waiting or runnable |
| `HostThreads.AlwaysOneOf` | fuzz/host/host.cc:465-494 | the same in every state of every such run |
| `HostThreads.PickedThread` | fuzz/host/host.cc:465-475 | right after a pick the thread picked runs, does not wait, and is off the runnable set unless the switch to it signalled it |
| `HostThreads.RunnableIffWoken` | fuzz/host/host.cc:477-494 | in every run the running thread is in the runnable set if and only if it has been woken since it was picked |
| `HostThreads.SelectableAndWaiting` | fuzz/host/host.cc:496-514 | in every run a still-waiting thread other than the main one can be selected if and only if it is the running one, waits, and has been woken since it was picked |
| `HostThreads.NoLostWakeup` | fuzz/host/host.cc:477-494 | a woken switched-out thread is runnable and does not wait until it is selected |
| `HostThreads.MayAbortIff` | fuzz/host/host.cc:496-514 | some choice of the scheduler makes blocking abort if and only if nothing is runnable and the main thread waits, or the running thread waits and is the main one or in the runnable set |
| `HostThreads.SignalsDoNotMatter` | fuzz/host/host.cc:438-447 | which threads the switch signals has no part in whether blocking aborts |
| `HostThreads.BlockAborts` | fuzz/host/host.cc:620-635 | in every run the same, with the runnable set put in terms of history: the running thread waits and has been woken since it was picked |
| `HostThreads.WokenWhileRunning` | fuzz/host/host.cc:620-635 | a state in which waking the running thread leads to that abort |
| `HostThreads.BlockReturns` | fuzz/host/host.cc:459-463 | in every run a thread that waits when it blocks, or that is switched out, gets an ordinary wakeup as its result whatever ended its wait; one that is picked again at once gets the result it had |
| `HostThreads.TimeoutIsLost` | fuzz/host/host.cc:459-494 | a run in which a timeout ends the wait of a blocked thread and the thread gets an ordinary wakeup |
| `HostThreads.StepBoth` | fuzz/host/host.cc:449-453 | a thread is waiting and runnable after a step if and only if the step makes it so, or it was and is neither woken nor picked |
| `HostThreads.AlwaysWaitingOrRunnable` | fuzz/host/host.cc:449-494 | in every run that also waits for virtual locks each switched-out thread waits or is runnable, and is both if and only if it was made runnable while it waited and has been neither woken nor picked since |
| `HostThreads.StepKeepsFlagInv` | fuzz/host/hypercall/hypercall.cc:349-359 | every step keeps the wait flags on waiting threads only and the count of enqueuings at one per mark |
| `HostThreads.MarkWaitAborts` | fuzz/xnu/osfmk/api/thread.c:80-93 | in every run marking a wait aborts if and only if the thread already waits or is queued for termination |
| `HostThreads.EnqueuedOnce` | fuzz/host/host.cc:425-429 | in every run a thread is enqueued for termination at most once before it is destroyed |
| `HostThreads.EnqueuedIff` | fuzz/host/host.cc:425-429 | in every run a step enqueues a thread for termination if and only if it switches away from that thread while the thread waits, is terminating and is not yet enqueued |
| `HostThreads.EnqueuedLasts` | fuzz/host/host.cc:425-429 | from then until it is destroyed the thread is marked as enqueued and has been enqueued once |
| `HostThreads.MarkWaitDoes` | fuzz/xnu/osfmk/api/thread.c:80-126 | which waits are refused as interrupted, which marks an accepted one leaves, and its result |
| `HostThreads.WakeupDoes` | fuzz/host/host.cc:477-494 | a wakeup ends the wait with the given result, takes its marks away and makes the thread runnable unless it is the main one |
| `HostThreads.BlockOnLockDoes` | fuzz/host/host.cc:449-453 | waiting for a virtual lock is an uninterruptible wait, after which the main thread runs and waits no more |
| `HostThreads.CreateDoes` | fuzz/host/host.cc:98-119 | a new thread is mapped both ways and runnable exactly if asked |
| `HostThreads.MarksSet` | fuzz/host/hypercall/hypercall.cc:260-352 | what the setters of the termination mark and of the uninterruptible wait leave |
| `HostThreads.DestroyForgets` | fuzz/host/host.cc:270-286 | nothing is left of a destroyed thread |
| `HostThreads.StepLeavesOthers` | fuzz/host/host.cc:425-494 | no step changes the marks or the result of a thread it is not about |
| `HostThreads.Host.constructor` | fuzz/host/host.cc:309-312 | the host starts with the main thread mapped and running, and both invariants |
| `HostThreads.Host.ThreadClearWait` | fuzz/host/hypercall/hypercall.cc:354-359 | clears the wait and both flags and sets the result |
| `HostThreads.Host.ThreadWakeup` | fuzz/host/host.cc:477-494 | makes the wakeup step |
| `HostThreads.Host.ThreadSetBlocked` | fuzz/host/host.cc:425-436 | enqueues a terminating thread once and takes the thread off the runnable set |
| `HostThreads.Host.SwitchAway` | fuzz/host/host.cc:438-447 | the thread left becomes blocked or runnable, and those who waited for it are woken |
| `HostThreads.Host.ThreadBlock` | fuzz/host/host.cc:620-635 | makes the block step for every choice of the scheduler, or aborts |
| `HostThreads.Host.Yield` | fuzz/host/host.cc:121-136 | blocks unless preemption is off or the thread waits |
| `HostThreads.Host.MarkWaitLocked` | fuzz/xnu/osfmk/api/thread.c:80-126 | marks the wait, reports an interruption or aborts, as specified |
| `HostThreads.Host.ThreadDestroyed` | fuzz/host/host.cc:270-286 | removes the thread from every table |
| `LockSleep.OthersKeepMine` | fuzz/xnu/osfmk/fakes/sync/rw_lock.cc:147-177 | however long other threads take and drop a lock, exclusion holds and the waiting thread's own hold is unchanged |
| `LockSleep.LockUser.RwDone` | fuzz/xnu/osfmk/fakes/sync/rw_lock.cc:155-161 | gives the lock up and returns the mode in which the caller held it |
| `LockSleep.LockUser.RwLock` | fuzz/xnu/osfmk/fakes/sync/rw_lock.cc:169-177 | takes the lock in the mode asked for, and waits only while it is not free; aborts if and only if the type is neither |
| `LockSleep.LockUser.RwSleep` | fuzz/xnu/osfmk/fakes/locks.c:245-289 | panics exactly on bits outside the mask, sleeps once if the wait was asserted and otherwise not, does not hold the lock when it goes to sleep, never reaches the abort, and returns unheld, in the original mode, or in the mode asked for with exclusive winning; the priority floor is raised for the sleep only |
| `LockSleep.LockUser.MtxSleep` | fuzz/xnu/osfmk/fakes/locks.c:291-340 | the same for a mutex, which is held on return if and only if UNLOCK is clear |
| `LockSleep.LockUser.SpinSleep` | fuzz/xnu/osfmk/fakes/locks.c:62-84 | the same for a spin lock, without a priority floor |
| `LockSleep.LockUser.MtxLock` | fuzz/xnu/osfmk/fakes/sync/mutex.cc:88-91 | a call that returns holds the mutex, and one that does not finds it taken |
| `LockSleep.LockUser.MtxUnlock` | fuzz/xnu/osfmk/fakes/sync/mutex.cc:93-96 | the mutex is not held afterwards |
| `ZoneGeometry.AdjustSize` | fuzz/xnu/osfmk/fakes/zalloc.c:576-616 | the least multiple of eight that is at least eight and the size |
| `ZoneGeometry.AllWasteIff` | fuzz/xnu/osfmk/fakes/zalloc.c:634-649 | pages waste all of themselves if and only if no element fits |
| `ZoneGeometry.BestIsUnique` | fuzz/xnu/osfmk/fakes/zalloc.c:648-654 | there is one smallest number of pages with least waste |
| `ZoneGeometry.MinAllocGranule` | fuzz/xnu/osfmk/fakes/zalloc.c:618-657 | the result is the smallest page multiple up to the limit with the least percentage of waste; per-CPU and read-only zones and the panic as in the code |
| `ZoneGeometry.SearchGranule` | fuzz/xnu/osfmk/fakes/zalloc.c:634-654 | the loop finds it among all page multiples up to the limit |
| `ZoneGeometry.BestHolds` | fuzz/xnu/osfmk/fakes/zalloc.c:648-654 | the best pages hold an element wherever the limit leaves room for one |
| `ZoneGeometry.ZoneGeometryHolds` | fuzz/xnu/osfmk/fakes/zalloc.c:720-732 | elements and slack make up the chunk exactly, at least one element fits, and cutting to sixteen bits loses nothing |
| `ZoneGeometry.PerCpuHolds` | fuzz/xnu/osfmk/fakes/zalloc.c:726-728 | a per-CPU zone has a page for each CPU, and its elements and slack make up one page |
| `ZoneGeometry.ReadOnlyHolds` | fuzz/xnu/osfmk/fakes/zalloc.c:626-627 | a read-only zone holds an element if and only if that is no larger than a page |
| `ZoneTable.StepCreates` | fuzz/xnu/osfmk/fakes/zalloc.c:520-570 | a create that does not panic fills the slot asked for or the next dynamic one, which was empty, and nothing else; the early return is not taken |
| `ZoneTable.CountersAgree` | fuzz/xnu/osfmk/fakes/zalloc.c:526-527 | the zones in use are never more than the zones counted |
| `ZoneTable.PanicsIff` | fuzz/xnu/osfmk/fakes/zalloc.c:542-552 | exactly which creates panic |
| `ZoneTable.RunInv` | fuzz/xnu/osfmk/fakes/zalloc.c:665-755 | after every prefix of every run the slots in use are exactly the IDs returned, and both counters are right |
| `ZoneTable.IdsOfRun` | fuzz/xnu/osfmk/fakes/zalloc.c:553-569 | the i-th create returns the ID asked for, or the first dynamic ID plus the dynamic creates before it; no two creates return the same |
| `ZoneTable.ZoneStays` | fuzz/xnu/osfmk/fakes/zalloc.c:682-690 | no later create changes a zone |
| `ZoneTable.LookupAfterRun` | fuzz/xnu/osfmk/fakes/zalloc.c:1262-1278 | the lookup finds a zone if and only if a create has returned the ID, and then the zone of that create; it finds none for ZONE_ID_ANY and panics exactly beyond the table |
| `ZoneTable.CreatedGeometry` | fuzz/xnu/osfmk/fakes/zalloc.c:720-732 | to the end of every run an ordinary zone's elements and slack make up its pages |
| `ZoneTable.Table.Find` | fuzz/xnu/osfmk/fakes/zalloc.c:520-570 | gives the specified slot and counters, or the panic |
| `ZoneTable.Table.Create` | fuzz/xnu/osfmk/fakes/zalloc.c:665-755 | makes the specified step |
| `ZoneTable.Table.ById` | fuzz/xnu/osfmk/fakes/zalloc.c:1262-1278 | gives the specified answer |
| `ZoneCache.AllocTraceReplay` | fuzz/xnu/osfmk/fakes/zalloc.c:1067-1094 | a batch can happen if and only if its elements are new and all different, and makes exactly them live |
| `ZoneCache.FreeTraceReplay` | fuzz/xnu/osfmk/fakes/zalloc.c:1100-1112 | freeing a batch frees each element once and nothing else |
| `ZoneCache.BatchThenFree` | fuzz/xnu/osfmk/fakes/zalloc.c:1059-1112 | a batch and its free leave live what was before and the elements whose push failed; nothing is lost if and only if every push succeeds |
| `ZoneCache.BatchReaches` | fuzz/xnu/osfmk/fakes/zalloc.c:1067-1094 | in a batch every element is allocated in order by the caller's operation if there is one, and marked valid if there is such an operation; nothing is freed or marked invalid |
| `ZoneCache.FreeReaches` | fuzz/xnu/osfmk/fakes/zalloc.c:1100-1112 | every element is freed, the last first, by the caller's operation if there is one, and marked invalid if there is such an operation |
| `ZoneCache.AllKept` | fuzz/xnu/osfmk/fakes/zalloc.c:1119-1127 | if every push succeeds the stack is the whole batch in order |
| `ZoneCache.ZStack.Push` | fuzz/xnu/osfmk/fakes/zalloc.c:1119-1127 | the element is on top, or the stack is unchanged |
| `ZoneCache.ZStack.Pop` | fuzz/xnu/osfmk/fakes/zalloc.c:1129-1143 | takes the last element, and frees the buffer with the first |
| `ZoneCache.AllocN` | fuzz/xnu/osfmk/fakes/zalloc.c:1059-1097 | all elements, distinct and new, or an empty stack with all pushed elements freed again, last first; the exact sequence of calls |
| `ZoneCache.FreeN` | fuzz/xnu/osfmk/fakes/zalloc.c:1100-1112 | the exact sequence of calls, last element first; those elements and the buffer are gone |
| `MachMessage.WordReads` | fuzz/handlers/mach_message.cc:180-192 | a stored word reads as the number modulo 2^32 |
| `MachMessage.CopyTo` | fuzz/handlers/mach_message.cc:197-198 | a copy is in bounds, writes the bytes and nothing else |
| `MachMessage.GetMachMsgStruct` | fuzz/handlers/mach_message.cc:160-216 | the result is header, body if there are descriptors, descriptors in order and data; the abort is not reached |
| `MachMessage.GetMachMsg` | fuzz/handlers/mach_message.cc:218-240 | the raw data without a header, otherwise the layout of the set descriptors |
| `MachMessage.SizeWord` | fuzz/handlers/mach_message.cc:189-192 | the size word equals the length of the message if and only if that is below 2^32 |
| `MachMessage.HeaderReads` | fuzz/handlers/mach_message.cc:180-197 | the bits, the size, the three ports and the ID read back from their places in the header |
| `MachMessage.PlainRead` | fuzz/handlers/mach_message.cc:180-212 | without descriptors there is no count word and the data follow the header |
| `MachMessage.DescriptorsRead` | fuzz/handlers/mach_message.cc:199-210 | reading back finds the count, every descriptor at its offset, and the data |
| `MachMessage.SetOnesCount` | fuzz/handlers/mach_message.cc:226-232 | the descriptors passed on are as many as are set |
| `MachMessage.SetOnesOrder` | fuzz/handlers/mach_message.cc:226-232 | a set descriptor comes right after the set ones before it |
| `PointerNames.NamesDiffer` | fuzz/host/logger.cc:158-163 | below the number of pairs, different indices give different names |
| `PointerNames.NamedKeepsInv` | fuzz/host/logger.cc:165-170 | naming a pointer keeps used names equal to the names in the table, one pointer to a name |
| `PointerNames.FreshExistsIff` | fuzz/host/logger.cc:146-150 | an unused index exists if and only if fewer pointers are named than there are pairs |
| `PointerNames.PointerNamer.GenerateName` | fuzz/host/logger.cc:152-172 | a named pointer keeps its name; otherwise the first fresh draw names it, and there is a result exactly if one of the draws is fresh |
| `HeaderPruning.PartsAreAbove` | bazel/headers.bzl:27-32 | every joined prefix of a folder's parts is above the folder |
| `HeaderPruning.AboveIsParts` | bazel/headers.bzl:27-32 | everything above a folder is one of its joined prefixes |
| `HeaderPruning.ShouldSkip` | bazel/headers.bzl:27-35 | the loop answers whether some listed folder is above |
| `HeaderPruning.GetHeaders` | bazel/headers.bzl:19-41 | the loops list the headers of the folders that no listed folder is above |
| `HeaderPruning.Antichain` | bazel/headers.bzl:23-39 | no expanded folder is above another |
| `HeaderPruning.PrunedOrder` | bazel/headers.bzl:21-39 | the folders are expanded in the order in which they are first listed |
| `HeaderPruning.CoveredIff` | bazel/headers.bzl:23-39 | a listed folder is expanded, or one above it is, if and only if it is not "." or below "." with "." listed |
| `HeaderPruning.DotShadows` | bazel/headers.bzl:24-35 | listing "." and "./x" expands nothing |
| `HeaderPruning.HeadersListed` | bazel/headers.bzl:37-41 | every header below a folder that is not lost in this way is listed, once, and nothing else |

## Left out

- Text outside ASCII: word characters, spaces and digits of other scripts, and Python's limit on the length of integers.
- CallerCodegen.GenerateCallerBlock: the fixed text around the statements, element loops of `Array` fields and the cleanup text are not modelled.
- CallerScope.BlockFails: which error a size of a size raises is not stated, except for a `SizeOf` of itself.
- CallerArguments.ArgumentsArePassed: what is passed for a `SizeOf` of a `SizeOf` is generated, but not followed through the chain.
- UpstreamFilter.ParseSyscalls: a condition is the one flag after the directive, so compound conditions have no meaning of their own; the parser of one entry (its regular expression and arguments) is a parameter; the theorems hold for every such parser.
- ProtoOrder.WriteProtos: message texts are given; preamble and indentation are not modelled.
- Inheritor chains, priorities of the woken thread, deadlines and timers: only who waits, and on what.
- HostThreads.Host.ThreadBlock: continuations, stacks, suspension (stopping a thread is disabled in fuzz/host/hypercall/hypercall.cc:252-258), the callbacks that report blocking and unblocking, and the scheduler's preference for the running thread are not modelled.
- The raw setter at fuzz/host/hypercall/hypercall.cc:312-315, which enqueues a thread for termination whatever its marks.
- TicketLock.HwTicketLockManager.Destroy: that the waiters leave in the end is not claimed, since it depends on the schedule.
- LockSleep.LockUser.RwSleep: that the lock is got back in the end is not claimed; a call may stay contending.
- PointerNames.PointerNamer.GenerateName: the loop is given a number of draws; that a fresh draw comes is not claimed. Word lists are parameters, without repetition and with no underscore in an adjective, as in fuzz/host/words.
- ZoneTable.Table.Create: names, statistics, security flags and the caller's extra setup are not modelled; the first dynamic ID and the page size are parameters, since the kernel's headers are not part of the repository.
- ZoneGeometry.MinAllocGranule: the larger chunk limit of 16K-page ARM machines is an instance of the limit parameter; division magic numbers are left out.
- ZoneCache.ZStack.Push: the address of the buffer is not modelled, only its contents and that it is allocated.
- MachMessage.GetMachMsgStruct: the bits word and the bytes of one descriptor are parameters.
- HeaderPruning.GetHeaders: glob is modelled as the header files below a folder by their text; package boundaries are not modelled.
- Stubs and fakes that abort or return constants, the command switch, the syscall and trap wrappers, sessions, logging, colours and backtraces: no behaviour worth a proof.
- Pointer extraction and formatting in log lines (fuzz/host/logger.cc:82-104): they only change the text of log messages. The `zalloc_n` variant (fuzz/xnu/osfmk/fakes/zalloc.c:1145-1177): it stops at the first failure and keeps what it has, so there is no rollback to prove.
