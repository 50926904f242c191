# Verified model of the core library

This project models the core of a C library for FastCGI applications and proves what its data
structures and life cycles promise.  `dafny verify dfyconfig.toml` checks all of it.

The parts, with the files of the repository they model:

- **Hashing** (`src/murmur3.c`): `Words.dfy` and `Factors.dfy` hold the word operations and their
  inverses, `Chain.dfy` what follows for any chained mixer whose rounds can be undone,
  `Murmur3Lanes.dfy` what the variants share, and `Murmur3X86.dfy`, `Murmur3X86Wide.dfy` and
  `Murmur3X64Wide.dfy` the three variants: a reference definition, the imperative code proved to
  compute it, and the theorems about collisions.
- **Hooks** (`src/hook.c`): `HookSpec.dfy` is about registration, `HookRun.dfy` is a machine that
  interleaves a traversal with the registrations its callbacks make, and `Hook.dfy` has the linked
  lists, proved to follow the machine.  Callbacks are arbitrary: a `World` says which hooks each call
  registers and what it returns, and the theorems hold in every world.
- **Requests and stores** (`src/req.c`, `src/end.c`): `PoolSpec.dfy` is about free-list pools and runs
  of them, `Request.dfy` has the linked free lists and the handling of one request with all its exits,
  which asks the router for the endpoint, and `Sessions.dfy` any number of requests on a site with any
  number of endpoints, from the initialisation to the end.  The objects log the events of their life
  where the code runs a hook, hands out, takes back or deallocates.
- **Hash table, router, variables** (`src/ht.c`, `src/url.c`, `src/var.c`): `HashSpec.dfy` and
  `HashTable.dfy`, `RouteSpec.dfy` and `Router.dfy`, `VarSpec.dfy` and `VarStore.dfy`.  `Memory.dfy`
  keeps the account of what is allocated: only what is live can be freed, and every operation keeps
  what is live in step with what the structure holds.
- **Configuration and plugin queue** (`src/conf.c`, `src/pl.c`): `Json.dfy` relates token arrays to
  JSON values and `JsonText.dfy` writes values as text and tokens, `PluginQueue.dfy` is the queue,
  `ConfSpec.dfy` says what assignments do, `IncludeSpec.dfy` what including files means, and
  `ConfLoader.dfy` has the index-chasing loops and the recursive loader, any allocation of which may fail.
  `PluginsText.dfy` closes the circle for lists of plugins and `OptionsText.dfy` for boolean options.
- **Polled descriptors** (`src/poll.c`): `Poll.dfy`.

Where the source updates state in place, a class does so here, and its methods are proved against
a specification on values, which the theorems are about.  The abstract value a method starts from is
often handed to it as a ghost parameter, and a predicate named `Shows` says that the object has it.
What the environment decides (memory, the results of hooks, what arrives from the server) is a
parameter of each operation, so that every combination of failures is covered.

Findings, each stated with the exact condition:

- The test that decides between freeing and caching a returned request or store compares the objects
  in use with 1.618 times all objects.  It cannot hold while the counters are right, so nothing is
  ever freed before the end (`PoolSpec.ReleaseNeverFails`), and `all_count` is the peak usage.
- If the CREATED hook of an endpoint store fails, the store is freed but stays with the request, is
  given back, and is handed out again (`PoolSpec.LostObjectComesBack`).  The stores are in order
  exactly as long as this has not happened (`Request.SessionKeepsPools`, `Sessions.SiteKeepsPools`), and
  `fra_end_free` deallocates the store a second time exactly if it has (`Sessions.WholeLife`).
- `fra_p_req_init` resets the free list but not the counters (`PoolSpec.SessionLeavesCounters`).
- If a FREE hook fails in `fra_end_free`, the rest of the cached stores is lost
  (`PoolSpec.FreeEachLeaks`).
- Registering variables keeps the size of a store below SIZE_MAX, but the block is allocated with a
  header before the store, and the sum may wrap around: `VarSpec.HugeVariable` is accepted, and its block
  is smaller than the header.  All slots are inside exactly if the sum does not exceed SIZE_MAX
  (`VarSpec.HoldsIff`, `VarSpec.InBoundsIff`).
- Registering a variable under a name in use is meant to be refused (`src/var.c:45`), but
  `fra_p_ht_set` never returns the value tested for: the registration succeeds, uses up space, and the
  first one goes on being found (`VarStore.VarTable.Reg`).
- The warning of more than 10% collisions restarts its counter from the least int, so that it is next
  due more than 2^31 collisions later (`HashSpec.FirstAlarm`).

## Model

| member | source | states |
|---|---|---|
| `Murmur3Lanes.Rotl32Undone` | src/murmur3.c:21-24 | rotation by each count that occurs, 13 to 19, is undone by the complementary one |
| `Murmur3Lanes.Rotl64Undone` | src/murmur3.c:26-29 | the same for 64-bit words |
| `Words.Fmix32Permutes` | src/murmur3.c:45-54 | `fmix32` is a permutation of the 32-bit words, with its inverse |
| `Words.Fmix64Permutes` | src/murmur3.c:58-67 | `fmix64` is a permutation of the 64-bit words, with its inverse |
| `Words.Fmix32Is` | src/murmur3.c:45-54 | the value of `fmix32`, assignment by assignment, with its shifts and factors |
| `Words.Fmix64Is` | src/murmur3.c:58-67 | the value of `fmix64`, assignment by assignment, with its shifts and factors |
| `Words.FinalMix32` | src/murmur3.c:45-54 | the five steps of `fmix32`, whatever words come in between: shift by 16, times 0x85ebca6b, shift by 13, times 0xc2b2ae35, shift by 16; they compute the permutation |
| `Words.FinalMix64` | src/murmur3.c:58-67 | the five steps of `fmix64`, whatever words come in between: shift by 33, times 0xff51afd7ed558ccd, shift by 33, times 0xc4ceb9fe1a85ec53, shift by 33; they compute the permutation |
| `Chain.AbsorbPermutesStates` | src/murmur3.c:88-99 | for any lawful round: absorbing fixed blocks is a permutation of the state |
| `Chain.OneBlockDecides` | src/murmur3.c:88-99 | for any lawful round: block sequences that differ in one place lead to one state exactly if they are equal |
| `Chain.OneBlockReachesAll` | src/murmur3.c:88-99 | for any lawful round: one block takes the state to every value |
| `Chain.DigestDecides` | src/murmur3.c:88-123 | a digest tells apart inputs that differ in one block or in the tail |
| `Chain.SeedDecides` | src/murmur3.c:78-123 | a digest tells any two seeds apart |
| `Chain.DigestReachesAll` | src/murmur3.c:88-123 | one block takes the digest to every value |
| `Murmur3Lanes.PartialWord32` | src/murmur3.c:106-112 | the fall-through switch reads the bytes of the tail as a little-endian word |
| `Murmur3Lanes.PartialWord64` | src/murmur3.c:276-292 | the same for the 64-bit tails |
| `Murmur3Lanes.XorByte32` | src/murmur3.c:110-112 | one case of the switch: its byte is mixed in exactly if the tail is that long |
| `Murmur3Lanes.XorByte64` | src/murmur3.c:276-292 | the same for the 64-bit tails |
| `Murmur3X86.MurmurHash3_x86_32` | src/murmur3.c:71-124 | the method computes the reference hash, for every key and seed; for keys shorter than four bytes the whole formula, from the bytes of the key to the last shift |
| `Murmur3X86.HashIs` | src/murmur3.c:71-124 | the hash as a trace of states from the seed on: each round takes in four bytes, lowest first, and the finish the up to three bytes left and the length |
| `Murmur3X86.ShortHashIs` | src/murmur3.c:106-121 | the whole formula for keys without a full word |
| `Murmur3X86.Body` | src/murmur3.c:86-99 | the loop with negative indices absorbs the blocks from first to last |
| `Murmur3X86.MixerIsLawful` | src/murmur3.c:92-98 | a round is a permutation of `h1` for each block and of the block for each `h1` |
| `Murmur3X86.UnfinishUndoes` | src/murmur3.c:106-121 | tail and finaliser can be undone in the state |
| `Murmur3X86.SolveTailSolves` | src/murmur3.c:106-121 | tail and finaliser can be undone in the tail |
| `Murmur3X86.OneWordDecides` | src/murmur3.c:71-124 | keys of one length that differ, if at all, inside one aligned word hash alike exactly if they are equal, for every seed and length |
| `Murmur3X86.ShortKeysInjective` | src/murmur3.c:71-124 | the hash is injective on the keys of one length up to four |
| `Murmur3X86.SeedsDecide` | src/murmur3.c:71-124 | two seeds never give a key the same hash |
| `Murmur3X86.OneWordReachesAll` | src/murmur3.c:71-124 | any one full word takes the hash to every value |
| `Murmur3X86Wide.MurmurHash3_x86_128` | src/murmur3.c:128-230 | the method computes the reference hash |
| `Murmur3X86Wide.StepIs` | src/murmur3.c:152-171 | one round, lane by lane, with its rotations, factors and addends |
| `Murmur3X86Wide.FinishIs` | src/murmur3.c:177-224 | tail and finalisation, lane by lane |
| `Murmur3X86Wide.HashIs` | src/murmur3.c:128-230 | the hash as a trace of states from the seed on, each round taking in sixteen bytes, lowest first |
| `Murmur3X86Wide.Body` | src/murmur3.c:148-172 | the block loop absorbs the blocks |
| `Murmur3X86Wide.Round` | src/murmur3.c:152-171 | the interleaved updates of `k1..k4` and `h1..h4` are one lawful step |
| `Murmur3X86Wide.AddTail` | src/murmur3.c:177-208 | the sixteen-way fall-through switch mixes in the tail |
| `Murmur3X86Wide.Finalise` | src/murmur3.c:213-229 | the finalisation computes the avalanche |
| `Murmur3X86Wide.MixerIsLawful` | src/murmur3.c:152-171 | the block round is a permutation of the whole state and of the block |
| `Murmur3X86Wide.AvalanchePermutes` | src/murmur3.c:215-224 | the cross-adding finalisation is a permutation of the whole state |
| `Murmur3X86Wide.OneBlockDecidesHash` | src/murmur3.c:128-230 | keys of one length that differ only inside one 16-byte block, or only in the tail, never collide |
| `Murmur3X86Wide.SeedsDecide` | src/murmur3.c:128-230 | two seeds never give a key the same hash |
| `Murmur3X86Wide.OneBlockReachesAllHashes` | src/murmur3.c:128-230 | any one full block takes the hash to every value |
| `Murmur3X64Wide.MurmurHash3_x64_128` | src/murmur3.c:234-312 | the method computes the reference hash |
| `Murmur3X64Wide.StepIs` | src/murmur3.c:254-263 | one round, lane by lane, with its rotations, factors and addends |
| `Murmur3X64Wide.FinishIs` | src/murmur3.c:269-308 | tail and finalisation, lane by lane |
| `Murmur3X64Wide.HashIs` | src/murmur3.c:234-312 | the hash as a trace of states from the seed on, each round taking in sixteen bytes, lowest first |
| `Murmur3X64Wide.Body` | src/murmur3.c:250-264 | the block loop absorbs the blocks |
| `Murmur3X64Wide.Round` | src/murmur3.c:254-263 | the interleaved updates are one lawful step |
| `Murmur3X64Wide.AddTail` | src/murmur3.c:269-294 | the fall-through switch mixes in the tail |
| `Murmur3X64Wide.Finalise` | src/murmur3.c:299-311 | the finalisation computes the avalanche |
| `Murmur3X64Wide.MixerIsLawful` | src/murmur3.c:254-263 | the block round is a permutation of the whole state and of the block |
| `Murmur3X64Wide.AvalanchePermutes` | src/murmur3.c:301-308 | the cross-adding finalisation is a permutation of the whole state |
| `Murmur3X64Wide.OneBlockDecidesHash` | src/murmur3.c:234-312 | keys of one length that differ only inside one 16-byte block, or only in the tail, never collide |
| `Murmur3X64Wide.SeedsDecide` | src/murmur3.c:234-312 | two seeds never give a key the same hash |
| `Murmur3X64Wide.OneBlockReachesAllHashes` | src/murmur3.c:234-312 | any one full block takes the hash to every value |
| `HookSpec.Slot` | src/hook.c:55-79 | where a hook goes: after all of lower or equal priority before the first strictly greater one |
| `HookSpec.InsertIsStable` | src/hook.c:55-83 | an insertion keeps the order of the hooks of each priority and puts the new one last among its own |
| `HookSpec.RegistrationsStableSort` | src/hook.c:55-83 | after any sequence of registrations a list is the stable sort of its registrations by priority |
| `HookSpec.StableSortUnique` | src/hook.c:62-79 | there is only one stable sort, so the order is fixed completely |
| `HookRun.Run` | src/hook.c:118-143 | a traversal whose callbacks register finitely many hooks ends |
| `HookRun.RegisterKeepsCursor` | src/hook.c:118-139 | a registration leaves the same hook under the cursor |
| `HookRun.RegisterAllAround` | src/hook.c:53-83 | how registrations fall before and after the cursor of a running traversal |
| `HookRun.StepKeepsInv` | src/hook.c:118-139 | one callback with all its registrations keeps the account of which hooks have run |
| `HookRun.TraversalRuns` | src/hook.c:118-151 | the hooks that ran are those before the cursor except the ones put there too late, and the lists are the old ones with the registrations added |
| `HookRun.NoHookRunsTwice` | src/hook.c:118-139 | whatever is registered while callbacks run, no hook runs twice |
| `HookRun.OldHooksRunInOrder` | src/hook.c:118-139 | of the hooks older than any given registration, a prefix runs in order, and all of them if nothing fails |
| `HookRun.InitialHooksRunInOrder` | src/hook.c:118-139 | the hooks in the list at the start run in order up to the first failure, each once |
| `HookRun.NewHookRunsIff` | src/hook.c:53-139 | a hook that a running callback registers for the list being walked runs exactly if its priority is at least that of the running hook and, should the traversal fail, its place is not behind the hook that fails |
| `HookRun.InsertAroundCursor` | src/hook.c:55-83 | a hook spliced in on either side of the cursor leaves what has been run as it was, if it counts as late exactly when its priority is below that of the running hook |
| `HookRun.TraversalStopsAtFailure` | src/hook.c:125-143 | callbacks return zero up to the last, the result is 0 exactly if that one did too, and nothing runs after a failure |
| `HookRun.AddedIs` | src/hook.c:27-95 | which of some registrations are made, namely those for a list there is, with a callback and with memory, and the entries they add, in order |
| `HookRun.CallRegisters` | src/hook.c:118-139 | every call made by a traversal is numbered from the first on, and makes exactly the registrations of its number |
| `HookRun.ReqHooksStopAtFailure` | src/hook.c:220-246 | with or without an endpoint: all callbacks return zero up to the last, and the result is 0 exactly if that one did too, for the endpoint list and the request list as one sequence |
| `HookRun.ReqHooksRunInOrder` | src/hook.c:220-246 | with or without an endpoint: the hooks of the endpoint, if there is one, and then those of the request run in order up to the first failure, as one sequence |
| `HookRun.NoReqHookRunsTwice` | src/hook.c:220-246 | with or without an endpoint: no hook runs twice, whatever is registered into either list |
| `HookRun.NewReqHookRunsIff` | src/hook.c:220-246 | with or without an endpoint: for every hook registered in between, exactly when it runs; one for all requests that is registered while the endpoint's list is walked runs unless a hook fails before it, and one for the endpoint that comes after its list was walked never does |
| `Hook.LastNotAbove` | src/hook.c:69-79 | the search loop finds the hook after which the new one belongs |
| `Hook.HookList.Link` | src/hook.c:55-83 | linking changes the head or one `next` pointer, and inserts before the first strictly greater priority |
| `Hook.HookList.Insert` | src/hook.c:55-83 | the list afterwards is the specified insertion, node by node |
| `Hook.HookList.IsSorted` | src/hook.c:55-83 | a linked list is at all times the stable sort by priority of what has been registered in it |
| `Hook.HookTable.IsWf` | src/hook.c:47-87 | both lists of a request are sorted and share no hook whenever the table is valid, so every theorem about traversals of one list or both applies to them |
| `Hook.HookTable.Register` | src/hook.c:27-95 | registration succeeds exactly for one of the two lists, with a callback and with memory; it does what the traversal machine says, adds to the registrations of one list exactly if it succeeds, and leaves a node under a cursor there |
| `Hook.HookTable.Accept` | src/hook.c:40-87 | the registration of an admissible hook for which there is memory |
| `Hook.HookTable.AcceptForEndpoint` | src/hook.c:47-87 | the endpoint list takes the hook, the other list stays |
| `Hook.HookTable.AcceptForRequest` | src/hook.c:47-87 | the request list takes the hook, the other list stays |
| `Hook.HookTable.Callback` | src/hook.c:118-139 | a callback that registers any hooks leaves the cursor of the running traversal valid |
| `Hook.HookTable.Visit` | src/hook.c:118-139 | one turn of the loop refines one step of the machine, with `cur->next` read after the callback |
| `Hook.HookTable.Execute` | src/hook.c:97-151 | the pointer-chasing traversal refines the machine's run |
| `Hook.HookTable.ReqExecute` | src/hook.c:220-246 | the traversals of the endpoint list, if there is an endpoint, and of the request list refine the run of the machine over both, which are sorted and share no hook |
| `PoolSpec.AcquireKeepsSound` | src/req.c:31-78 | whatever fails, every object is where its history says: created before use, never used once freed |
| `PoolSpec.ReleaseKeepsSound` | src/req.c:80-122 | the same for giving back an object in use |
| `PoolSpec.AcquireKeepsInv` | src/req.c:31-78 | taking an object keeps the pool invariant |
| `PoolSpec.ReleaseKeepsInv` | src/req.c:80-122 | giving back an object in use keeps the pool invariant |
| `PoolSpec.ReleaseNeverFails` | src/req.c:92-110 | the test for freeing never holds: giving back always succeeds and caches the object |
| `PoolSpec.LostObjectComesBack` | src/end.c:38-66 | after a failed CREATED hook the freed object is given back, the miscount is permanent, and the next caller gets the dead object |
| `PoolSpec.RunKeepsInv` | src/req.c:31-122 | over every run each object is in use or on the free list, once; the counters count them; and `all_count` is the peak number in use |
| `PoolSpec.StraysMiscount` | src/req.c:31-122 | over every run, legal or not, `empty_count` is too high by the number of objects given back without being in use |
| `PoolSpec.FreeAllKeepsSound` | src/req.c:257-279 | the loop at the end of a session frees every cached object once |
| `PoolSpec.FreeAllBalances` | src/req.c:257-279 | when nothing is in use, that loop leaves every object ever created deallocated once |
| `PoolSpec.SessionPairsHooks` | src/req.c:41-62 | over a whole session with every object given back, each object has one CREATED and, with successful hooks, one FREE event, in a sound order |
| `PoolSpec.SessionLeavesCounters` | src/req.c:240-279 | the next session starts with the counters of the last one, ahead by its peak |
| `PoolSpec.FreeEachSucceeds` | src/end.c:190-209 | the loop of `fra_end_free` succeeds exactly if every FREE hook does |
| `PoolSpec.FreeEachLeaks` | src/end.c:190-235 | if a FREE hook fails, exactly the stores before it are freed and it and the rest are lost |
| `Request.Endpoint.StoreSet` | src/end.c:22-76 | free list, counters and events change as the pool says, with or without memory: the request gets the first cached store, or else a new one, or keeps its own if there is no memory |
| `Request.Endpoint.StoreMaybeFree` | src/end.c:78-121 | giving back a store changes the list, the counters and the events as the pool says: it is freed if more than 1.618 times all stores are in use and the hook succeeds, and otherwise put first on the list |
| `Request.Endpoint.FreeStores` | src/end.c:190-209 | the loop runs the FREE hook of the cached stores, first one first, and frees them, until a hook fails |
| `Request.EndFree` | src/end.c:180-238 | `fra_end_free`, which accepts a null endpoint: its cached stores are freed until a FREE hook fails |
| `Request.SetParam` | src/req.c:131-154 | a parameter is accepted exactly if it is there and shorter than the limit |
| `Request.MarkFrom` | src/req.c:177-187 | the place of the first question mark, or the end |
| `Request.SetUrl` | src/req.c:156-212 | the URL is accepted exactly if it is there and has at most 512 bytes, and is split at its first question mark into base and query |
| `Request.BaseIff` | src/req.c:177-206 | a text is the base of a URI exactly if it begins the URI, has no question mark, and the URI ends there or goes on with one |
| `Request.RouteTaken` | src/req.c:322 | which registration a verb and a URI lead to: the first with this verb and a URL that begins the URI, has no question mark, and is followed by the end or a question mark |
| `Request.StoreUsedIs` | src/end.c:22-121 | what one use does to the stores of an endpoint: the first one is handed out and comes back first, or a new one is made and ends up on the list, even if its CREATED hook failed |
| `Request.RequestsAfterIs` | src/req.c:286-374 | what handling one request does to the cached requests, for every combination of failures |
| `Request.Server.Init` | src/req.c:240-255 | initialising forgets the cached requests and keeps the counters |
| `Request.Server.Deinit` | src/req.c:257-279 | the loop runs the FREE hook of every cached request once and frees it, whatever the hooks return |
| `Request.Server.GetReq` | src/req.c:31-78 | free list, counters and events change as the pool says: the first cached request, or else a new one, or null exactly if memory or the hook fails |
| `Request.Server.TakeReq` | src/req.c:31-78 | the request handed out is not on the free list |
| `Request.Server.Recycle` | src/req.c:92-110 | the second half of `req_maybe_free`: the request is freed if more than 1.618 times all requests are in use and the hook succeeds, and otherwise put first on the list |
| `Request.Server.ReqMaybeFree` | src/req.c:80-122 | both halves succeed and give back the store and the request |
| `Request.Server.ExitRequest` | src/req.c:214-233 | one accept, one error body, one finish |
| `Request.Server.Receive` | src/req.c:304-318 | accepts once; succeeds exactly if the accept and the hook do, the verb is there with less than 50 bytes and the URI with at most 512 |
| `Request.Server.SetStore` | src/req.c:328-329 | the store a request gets is not on the free list |
| `Request.Server.Serve` | src/req.c:304-332 | the steps between accept and finish, ending at the first failure; the endpoint is that of the first registration of exactly the verb and the URL up to the question mark |
| `Request.Server.Respond` | src/req.c:347-364 | the error body exactly on failure, and one finish |
| `Request.Server.Answer` | src/req.c:304-364 | from the attempt to accept to the finish: one accept, one finish, the error body exactly on failure |
| `Request.Server.Process` | src/req.c:304-374 | the same, and then request and store are given back |
| `Request.Server.Begin` | src/req.c:291-297 | no request is taken unless the event and the hook allow; what is taken is not on the free list |
| `Request.Server.GiveBack` | src/req.c:349 | giving back after the answer returns request and store to their free lists |
| `Request.Server.HandleTaken` | src/req.c:299-374 | from taking the request on, every exit gives back request and store |
| `Request.Server.HandleBegun` | src/req.c:299-374 | the same in terms of the state before a request was taken |
| `Request.Server.HandleNew` | src/req.c:281-374 | one request, with any combination of failures: one accept, one finish, and the error body exactly if the result is -1; which endpoint it uses, by URI and registrations, is the contract of `Sessions.HandleOne` |
| `Request.HandlingKeepsRequests` | src/req.c:281-374 | handling a request keeps the pool of requests in order with none in use |
| `Request.UsingKeepsStores` | src/end.c:22-121 | taking and giving back a store keeps the stores in order unless its CREATED hook failed |
| `Request.SessionKeepsPools` | src/req.c:281-374 | over any number of requests there is never more than one request object; the stores of an endpoint are each on its list once, and are in order exactly as long as no CREATED hook of a store failed, which happens at most once |
| `Request.SessionAccounts` | src/end.c:22-121 | over any number of requests an endpoint has at most one store, which was created once, not freed, and dropped once exactly if its CREATED hook failed |
| `Request.FreeEachSettles` | src/end.c:190-235 | once the endpoint is freed, each of its stores has been deallocated once more for a failed CREATED hook and once less for a failed FREE hook |
| `Sessions.EachEndpointAlone` | src/req.c:281-374 | on a site with any number of endpoints, each has its stores as if the others were not there |
| `Sessions.SiteKeepsPools` | src/req.c:281-374 | over any number of requests and endpoints, whatever fails: at most one request object, and every endpoint's stores in order but for a failed CREATED hook |
| `Sessions.HandleRouted` | src/req.c:281-374 | one request on such a site, for the endpoint it is routed to |
| `Sessions.HandleShown` | src/req.c:281-374 | no other endpoint notices it |
| `Sessions.NextIs` | src/req.c:283-375 | the same for the specification: by URI and registrations, whether the endpoint is reached, whether all succeeds, and that the stores of this endpoint alone are used |
| `Sessions.HandleOne` | src/req.c:281-374 | one request on a site with any number of endpoints: the endpoint is that of the first registration with its verb whose URL begins the URI, without a question mark and followed by the end or by one; the result is 0 exactly if every step up to the NEW hook succeeds, and -1 otherwise; one accept, one finish, and the error body for -1 |
| `Sessions.HandleAll` | src/req.c:281-374 | any number of requests in a row: free lists and events are those of the specification, with one accept and one finish for each request and an error body for each that fails; what is cached afterwards was cached before or is new, so that more requests or the teardown can follow |
| `Sessions.Open` | src/glob.c:29-33 | initialisation and any registrations, some of which may fail, of new endpoints: everything is as between two requests |
| `Sessions.Close` | src/glob.c:42-50 | all endpoints are freed, then the cached requests: every request object has been deallocated as often as it was created, at most once |
| `Sessions.WholeLife` | src/glob.c:13-50 | from the initialisation over any registrations and requests to the end, by the events of the objects: every request object ever created is deallocated exactly once, and so is every store, but for one time more if its CREATED hook failed and one time less if its FREE hook did |
| `HashSpec.FirstMatchIs` | src/ht.c:162-166 | the first entry with the key decides |
| `HashSpec.UsedIsNonEmpty` | src/ht.c:115-116 | a bucket is in use exactly if it is not empty |
| `HashSpec.BucketSuffices` | src/ht.c:160-166 | for any hash function and bucket count, searching the bucket of the key finds the first match among all insertions |
| `HashSpec.BucketsPartition` | src/ht.c:69-80 | the buckets together hold every insertion once |
| `HashSpec.CollisionsNext` | src/ht.c:115-116 | an insertion adds one to entries minus used buckets exactly if its bucket was not empty |
| `HashSpec.CollisionIff` | src/ht.c:104-116 | an insertion is one more collision exactly if an earlier key leaves the same rest modulo the number of buckets |
| `HashSpec.AlarmsClosed` | src/ht.c:115-124 | the counter and the number of warnings in closed form, over every run |
| `HashSpec.FirstAlarm` | src/ht.c:115-124 | the counter is the number of collisions until the warning, which comes when they exceed the threshold; the second comes more than 2^31 collisions later |
| `HashTable.ComputeHash` | src/ht.c:102 | the hash of a key is the 32-bit hash of its bytes with seed 55 |
| `HashTable.HashTable.Hash` | src/ht.c:141 | what every lookup and every insertion computes is the hash the buckets go by |
| `HashTable.Enlarge` | src/ht.c:106-110 | reallocating keeps the elements and puts the new one behind them |
| `HashTable.HashTable.GetByHash` | src/ht.c:147-171 | the scan of one bucket returns the first match among all insertions |
| `HashTable.HashTable.Get` | src/ht.c:136-145 | the same, computing the hash |
| `HashTable.HashTable.Set` | src/ht.c:89-134 | success appends one insertion, failure changes no contents, and in either case what has been allocated is exactly what the table holds |
| `HashTable.HashTable.Insert` | src/ht.c:102-126 | the branch from the key string on |
| `HashTable.HashTable.MakeRoom` | src/ht.c:106-112 | reallocating a bucket and writing beyond its end changes no contents; the old buffer is gone and the new one there |
| `HashTable.HashTable.Append` | src/ht.c:115-126 | taking the new element into use keeps every bucket right |
| `HashTable.HashTable.CountIn` | src/ht.c:115-124 | the counter follows the collisions, and the warning is given exactly when it is due |
| `HashTable.HashTable.AlarmsAre` | src/ht.c:115-124 | when the warnings come: with the first collision over a tenth of the number of buckets, and then after each further round of the counter |
| `HashTable.HashTable.Free` | src/ht.c:61-87 | every key, every buffer, the buckets and the table are freed, once each, and every element goes to the destructor once |
| `HashTable.HashTable.FreeBuckets` | src/ht.c:69-82 | the outer loop |
| `HashTable.HashTable.FreeNext` | src/ht.c:69-80 | one turn of the outer loop |
| `HashTable.FreeBucket` | src/ht.c:71-76 | the inner loop, over one bucket |
| `RouteSpec.LookupIs` | src/url.c:160-174 | the first registration with this verb and URL decides |
| `RouteSpec.UrlSuffices` | src/url.c:158-174 | it is enough to search the registrations of the URL |
| `RouteSpec.LookupRegistered` | src/url.c:160-174 | an endpoint that is found has been registered for this verb and URL |
| `RouteSpec.LookupAppend` | src/url.c:160-174 | after any further registrations an answer that was given stays, and they answer what was open |
| `Router.AnswersStay` | src/url.c:195-257 | over any sequence of calls of `fra_end_url_add`, whichever fail: an answer once given stays, and the answer for a pair that none of them is about does not change |
| `Router.TakesIff` | src/url.c:195-257 | a registration is taken in exactly if its URL has less than 512 bytes and there is memory for the verb and for a node, or for the first registration of a URL for its key and its place |
| `Router.Router.ToEndpoint` | src/url.c:145-188 | the answer is the endpoint of the first registration with exactly this verb and URL, or none |
| `Router.Router.Add` | src/url.c:195-257 | which additions succeed; success registers at the end, failure registers nothing, and in either case what has been allocated is exactly what the router holds |
| `Router.Router.AddVerb` | src/url.c:209-240 | the same from the point where it has the verb |
| `Router.Router.AddToUrl` | src/url.c:222-240 | both branches, with what they come to own |
| `Router.Router.NewNode` | src/url.c:224-233 | the branch for a known URL, with or without memory |
| `Router.Router.NewEntry` | src/url.c:235-240 | the branch for a new URL: one table entry, chain of one |
| `Router.Router.AppendNode` | src/url.c:224-233 | the branch for a known URL keeps all chains right |
| `Router.AppendTo` | src/url.c:226-233 | walks to the last node and links a new one to it |
| `Router.Last` | src/url.c:226 | the loop finds the last node of a chain |
| `Router.OnlyOnce` | src/url.c:224-233 | no two chains share a node |
| `Router.LinksEntry` | src/url.c:235-240 | a new entry with a chain of one keeps entries and chains right |
| `Router.LinksAppend` | src/url.c:224-233 | a new last node keeps entries and chains right |
| `Router.DestroyAll` | src/url.c:49-76 | the destructor applied to every element of the table |
| `Router.DestroyUrl` | src/url.c:49-76 | frees every verb of a chain and every node but the first, once |
| `Router.Router.Deinit` | src/url.c:113-137 | teardown frees the table with its keys and buffers, all verbs and all nodes, once each, and nothing else |
| `Router.Router.AddAll` | src/url.c:195-257 | any sequence of calls, whichever fail: the registrations are those taken in, in order, and what has been allocated is what the router holds |
| `Router.Start` | src/url.c:83-257 | initialisation and any sequence of calls: what has been allocated is what the router holds |
| `Router.Life` | src/url.c:83-257 | from the initialisation over any calls to the teardown: an answer is that of the first registration taken in, and in the end nothing that was allocated is left |
| `VarSpec.TilesNext` | src/var.c:40-48 | a new slot begins where the last one ends |
| `VarSpec.NoOverlap` | src/var.c:38-50 | no two slots overlap |
| `VarSpec.InBoundsIff` | src/req.c:43-50 | a slot is inside an allocated block exactly if header and store together do not exceed SIZE_MAX, and it was registered before the allocation, or it and all since are empty |
| `VarSpec.BlockSizeIs` | src/end.c:38-42 | header and store are added modulo 2^64 |
| `VarSpec.HugeVariable` | src/var.c:38 | a variable that is accepted, and for which the block is smaller than its header |
| `VarSpec.HoldsIff` | src/end.c:38-42 | all slots are inside the block allocated for them exactly if header and store together do not exceed SIZE_MAX |
| `VarSpec.FirstNamed` | src/var.c:103-134 | the number of the first slot with a name |
| `VarSpec.WriteIsUpdate` | src/var.c:162-164 | in a block allocated for the slots whose size has not wrapped around, writing a byte of one variable is within the block and changes the map from names to values at this name alone |
| `VarSpec.ResolvesIffVisible` | src/var.c:98-160 | the names that resolve are those of the map of globals over locals |
| `VarSpec.WriteInRequest` | src/var.c:105-127 | a write through a global variable updates the map of all visible variables at one name |
| `VarSpec.WriteInEndpoint` | src/var.c:129-158 | a write through an endpoint variable does the same, since no global one has its name |
| `VarStore.VarTable.Reg` | src/var.c:32-58 | which registrations succeed; success adds one slot at the old size, failure adds none, and in either case what has been allocated is exactly what the table holds |
| `VarStore.VarTable.RegTyped` | src/var.c:44-50 | the same from the point where it has the type |
| `VarStore.VarTable.SetVar` | src/var.c:44 | its call of `fra_p_ht_set` |
| `VarStore.FirstMatchIsFind` | src/var.c:103 | looking a name up in the table finds its first slot |
| `VarStore.VarGet` | src/var.c:82-169 | what is found is the first registration of the name for all requests, or else the first for the endpoint if there is one; and it is returned exactly if no type is asked for or its type has this length and is equal to it |
| `VarStore.Seek` | src/var.c:82-169 | the two lookups of it give what the specification resolves the name to |
| `VarStore.FreeTypes` | src/var.c:76-80 | the destructor applied to every element of the table |
| `VarStore.VarTable.Deinit` | src/var.c:211-215 | teardown frees the table with its names and buffers, and every type, once each |
| `PluginQueue.PluginQueue.Add` | src/pl.c:51-67 | appends one plugin, through the pointer to the last node |
| `PluginQueue.PluginQueue.Reset` | src/pl.c:35-49 | frees every plugin once, first one first, and leaves an empty queue |
| `Json.TopLevelPlaced` | src/conf.c:346-353 | what follows a top-level value is a key of the document |
| `JsonText.WrittenEncodes` | src/conf.c:110-170 | the text of any JSON value, anywhere in a file, and the token array made for it are related as the loader expects |
| `JsonText.WrittenDocument` | src/conf.c:336-353 | the text and the tokens of any object are a document |
| `PluginsText.PluginsFileLoads` | src/conf.c:300-467 | a configuration file written for any list of plugins, as text and tokens, is loaded exactly if it has at most 1200 tokens and memory lasts, and then enables exactly these plugins |
| `OptionsText.BooleanFileLoads` | src/conf.c:206-218 | loading a file whose one member is a boolean option, with any text that has these tokens, succeeds exactly if its value begins with t or f and memory lasts, and leaves 1 or 0 in the option and the defaults elsewhere |
| `OptionsText.ThreadSafe` | src/conf.c:42-44 | loading `{"thread safe": true}` leaves 1 in the option |
| `PluginsText.ReadBack` | src/conf.c:110-170 | `set_plugins` on the text and tokens written for any list of plugins succeeds exactly if memory lasts and then appends exactly that list |
| `ConfLoader.InArrayIff` | src/conf.c:146-148 | the condition of the inner loop holds exactly for the items of the array |
| `ConfLoader.InObjectIff` | src/conf.c:125-133 | the condition of the outer loop holds exactly for the keys of the object |
| `ConfLoader.ReadArgv` | src/conf.c:141-164 | the inner loop reads the arguments, fails exactly at an item that is no string or when memory runs out, and ends right after the array |
| `ConfLoader.AddPlugin` | src/conf.c:125-168 | one turn of the outer loop, with its allocations |
| `ConfLoader.SetMembers` | src/conf.c:125-168 | the outer loop, whose index runs over the keys, with or without enough memory |
| `ConfLoader.SetPlugins` | src/conf.c:110-178 | appends the plugins before the first member that is none or for which memory runs out, in order, and succeeds exactly if there is no such member |
| `ConfLoader.ReadStrings` | src/conf.c:241-257 | the loop reads an array of strings and ends at the key after it; it fails exactly at an item that is no string or when memory runs out |
| `ConfLoader.ReadNumber` | src/conf.c:222-228 | a number is accepted exactly if it begins with a digit and fits into a long |
| `ConfLoader.Config.SetValue` | src/conf.c:180-298 | type by type: a string is taken as it is if memory lasts; a word that begins with t or f leaves 1 or 0; digits up to a long leave their number, cut to an int; an array of strings is taken if memory lasts for it and emptied if not; anything else fails and leaves the rest alone |
| `ConfLoader.Config.SetTyped` | src/conf.c:180-298 | the same as the assignment of the specification |
| `ConfLoader.Config.SetOption` | src/conf.c:409-428 | the first row with the name is set, if there is memory; an unknown name changes nothing |
| `ConfLoader.Config.SetDefaults` | src/conf.c:63-108 | the queue is emptied and every option set to its default, up to the first string that cannot be assigned |
| `ConfLoader.Config.SetRows` | src/conf.c:72-101 | the loop over the table of options |
| `ConfLoader.Config.LoadMember` | src/conf.c:349-432 | one top-level member has the effect of its flattening, up to the allocation that fails |
| `ConfLoader.Config.LoadIncluded` | src/conf.c:357-396 | an include copies the name and then has the effect of the file or directory |
| `ConfLoader.Config.LoadDirectory` | src/conf.c:375-396 | including a directory has the effect of its visible files, in the order they are read, up to the allocation that fails, and fails if it cannot be closed |
| `ConfLoader.Config.LoadEntries` | src/conf.c:378-391 | the loop over its entries |
| `ConfLoader.Config.LoadRecurse` | src/conf.c:300-467 | whichever allocation fails, the recursive loader has the effect of the flattened file up to there; it fails exactly if that does or the file cannot be closed |
| `ConfLoader.Parse` | src/conf.c:323-347 | a file is parsed exactly if every allocation succeeds and it has at most 1200 tokens, with a second parse if there are more than 200 |
| `ConfLoader.Config.LoadMembers` | src/conf.c:349-432 | its loop over the top-level members |
| `ConfLoader.Config.LoadAssignment` | src/conf.c:398-430 | a member that is no include has the effect of its assignment, up to the allocation that fails |
| `ConfLoader.Config.Load` | src/conf.c:515-528 | loading is resetting to the defaults, and unless that fails applying the flattened file up to the allocation that fails |
| `ConfLoader.Config.LoadEntry` | src/conf.c:380-387 | one entry of an included directory has the effect of its flattening after its path has been allocated, or none if it is hidden |
| `ConfSpec.GoodTo` | src/conf.c:125-168 | how many members are plugins before the first that is none |
| `ConfSpec.ReadTo` | src/conf.c:125-168 | how many members are read before the first that is no plugin or for which memory runs out |
| `ConfSpec.AllReadIff` | src/conf.c:125-168 | all members are read exactly if all are plugins and memory lasts |
| `ConfSpec.ApplyInIff` | src/conf.c:398-430 | a member is set exactly if it is acceptable and memory lasts, and then as if memory were no question |
| `ConfSpec.RowOf` | src/conf.c:409-411 | the first row of the table with a name |
| `ConfSpec.AssignInIs` | src/conf.c:180-298 | the assignment of the specification, type by type |
| `ConfSpec.ReadIs` | src/conf.c:125-168 | how many members of a list of plugins are read: those before the first that is no array of strings, or for which one of its allocations fails, two and two more for each string |
| `ConfSpec.PluginsMember` | src/conf.c:110-178 | a list of plugins adds those that are read, each with its key as the name and its strings as the arguments, and is accepted exactly if all are; anything but an object is refused |
| `ConfSpec.LeadingInToken` | src/conf.c:226-228 | `strtol` reads from the file, not from the token, and yet the number is that of the token |
| `ConfSpec.LeadingIs` | src/conf.c:224-230 | the number that digits stand for, ten times the one before and the next digit |
| `ConfSpec.ApplyAppend` | src/conf.c:349-432 | assignments can be applied in two parts |
| `ConfSpec.LastWriteWins` | src/conf.c:407-428 | an option has the value of the last member that sets it |
| `ConfSpec.Untouched` | src/conf.c:407-428 | an option no member sets keeps its value |
| `ConfSpec.PluginsConcatenated` | src/conf.c:398-405 | several lists of plugins are put one behind the other |
| `ConfSpec.UnknownIgnored` | src/conf.c:409-428 | unknown keys might as well not be there |
| `ConfSpec.DefaultsSet` | src/conf.c:72-101 | after the defaults an option has its own, unless a later row shares its place |
| `ConfSpec.DefaultsForget` | src/conf.c:63-108 | after the defaults nothing is left of what was configured, but for what no option is about |
| `IncludeSpec.OutcomeJoin` | src/conf.c:349-432 | going on after a first part, unless it failed |
| `IncludeSpec.FailureStays` | src/conf.c:442-465 | after a failure nothing more of the file takes effect |
| `IncludeSpec.FailureStaysInDir` | src/conf.c:378-391 | the same for the rest of a directory |
| `IncludeSpec.NextMember` | src/conf.c:349-432 | going on with the next member of a file |
| `IncludeSpec.NextEntry` | src/conf.c:378-391 | going on with the next entry of a directory |
| `IncludeSpec.ReadFirst` | src/conf.c:321-442 | a file of at most 1200 tokens: text and tokens take their allocations, one more beyond 200 tokens, then come its members; it succeeds exactly if all that does and it can be closed |
| `IncludeSpec.Unread` | src/conf.c:321-344 | a file that is not there, is no JSON or has more than 1200 tokens fails and changes nothing |
| `IncludeSpec.NameFirst` | src/conf.c:355-396 | a member `include` or `include directory` takes an allocation for the name and then stands for that file or directory; it fails if its value is no string, or the directory cannot be opened or closed |
| `IncludeSpec.HiddenEntry` | src/conf.c:378-391 | a directory entry that begins with a dot makes no difference |
| `IncludeSpec.PerformIff` | src/conf.c:349-432 | any sequence of steps succeeds exactly if its members are all accepted and memory lasts for all of it, and then leaves the state the members alone lead to |
| `IncludeSpec.LoadSucceedsIff` | src/conf.c:515-528 | a load succeeds exactly if every file can be read and closed, every member in flattened order is accepted, and memory lasts |
| `IncludeSpec.LoadMeans` | src/conf.c:515-528 | a successful load leaves the plugins of all lists in flattened order, and in each option its last value or its default |
| `IncludeSpec.LoadForgets` | src/conf.c:515-528 | the result does not depend on the configuration before |
| `Poll.PollSet.Init` | src/poll.c:128-171 | the array starts with the descriptor that requests come in on; a second initialisation fails |
| `Poll.PollSet.MaybeGrow` | src/poll.c:48-81 | afterwards there is room for the entry and one beyond, within the amortised bound |
| `Poll.PollSet.Realloc` | src/poll.c:62-65 | reallocation keeps the entries |
| `Poll.PollSet.FdAdd` | src/poll.c:83-122 | appends one entry, keeps the others in order, stays below the capacity, and moves at most three times the length in total |

## Left out

- FastCGI, sockets, `poll()`, `dlopen` and `dlsym`, reading files and directories, logging: what they
  return is a parameter, and accepts, finishes and error bodies are counted.
- Mutexes: `fra_p_pthreads` is only ever 0, so the lock macros do nothing; interleaving comes from
  callbacks that register hooks while a traversal runs.
- The internals of bstrlib, jsmn and jsonpath: strings are sequences, parsing starts from a token array
  with parent links, and the result of `$.*` is the list of top-level values in document order.
  Documents whose top level is no object are not part of this model, nor are keys that are no strings.
- `Murmur3Lanes.Rotl32Undone`: the shift counts are those up to 19 that occur in the source, and their
  complements; rotation by a negative or too large count is not modelled.
- Keys are sequences of bytes rather than pointers, and alignment plays no part; block reads are
  little-endian.
- `Murmur3X86.MurmurHash3_x86_32`: lengths are those of a non-negative C int.
- Priorities are reals and the factors 1.618 and 0.1 are exact; rounding and NaN are not modelled.
- `Hook.HookTable.Execute`: the arrays of lists by hook type are represented by the two lists that one
  execution walks; the global list is walked by the same loop.
- `Hook.HookTable.Callback`: callbacks register hooks of the type being executed, or try to and fail;
  those of other types change neither list.
- The malloc failures of constructors (`fra_end_new`, `fra_p_ht_new`).
- `Request.EndFree`: only the stores are freed here; the table of variables is freed by
  `VarStore.VarTable.Deinit`, and the hook lists, the mutex and the endpoint itself are not modelled.
- `Request.Server.HandleNew`: memory for a new store is there, since a request that does not get one goes
  on with the pointer it had (`Request.Endpoint.StoreSet`).  The endpoint is found by the router, not set
  by a hook, since `fra_req_endpoint_set` is declared but not defined; `fra_end_url_del` is not defined
  either.  The endpoint's callback runs after all checks and its result is ignored.
- `Sessions.WholeLife`: one session, from fresh counters; how the next one starts is the subject of
  `PoolSpec.SessionLeavesCounters`.
- `Sessions.HandleAll`: requests are handled one after the other, and nothing is registered in between;
  interleaved use of the pools is covered by `PoolSpec.RunKeepsInv`.
- `HashTable.HashTable.MakeRoom`: a reallocated buffer is a new one.
- `HashTable.HashTable.Free`: the destructor runs on all elements after the table is gone, rather than on
  each of them in between.
- `VarStore.VarTable.Reg`: sizes are 64 bits wide.
- `VarSpec.InBoundsIff`: a cached store is not resized when variables are registered later; the
  condition says which variables are then outside.
- `ConfLoader.SetMembers`: what `fra_p_pl_free` does with a plugin that could not be read.
- `ConfLoader.Parse`: how many buffers `bread` allocates is a parameter, and a call of bstrlib counts as one
  allocation.  The second call of jsmn is taken to go on where the first one stopped, and the enlarged
  array of tokens to be used, although the source does not assign it back.
- `ConfLoader.Config.LoadRecurse`: no file includes itself, directly or not, since the source would not
  end.
- `JsonText.WrittenEncodes`: the parser itself is not modelled, and strings are written as they are,
  without escapes.
- `ConfLoader.Config.Load`: the table of options is arbitrary, although the source has a single row.
- `Poll.PollSet.FdAdd`: the array of callbacks, whose byte sizes do not match its elements, and the
  overflow of the capacity beyond an int.
