# Verified models of the core of the entity-resolution program

The program resolves product specifications from many web sites to the things they describe. This
directory models the parts of it that carry its guarantees and proves what they owe their callers:

| files | what they model |
|---|---|
| `ProbeTable`, `Traversal`, `Rehashing`, `Clashes` | the open-addressed hash table of `src/hash.c` as a sequence of buckets, with one function per operation |
| `HashTable`, `Dict`, `TableLoops` | the same table in its buffer, the dictionary that grows it, and what loops over its entries do |
| `Queue`, `Semaphore` | the ring buffer and the start-up barrier under the scheduler |
| `SchedulerModel`, `SchedulerInvariant`, `SchedulerTheorems`, `Scheduler` | the job scheduler: a transition system with any number of workers and one master, what holds of every run, and the locked sections as methods on its fields |
| `SchedulerProgress`, `SchedulerCalls`, `SchedulerLife` | what its workers and its calls can come to, from `js_create` to `js_join_threads` |
| `SpecForest`, `Partition`, `CliqueLists` | the union-find of `src/spec_to_specs.c` as values: what a merge does to the sets, against the smallest equivalence relation |
| `Sts`, `SimilarPairs`, `PairBuffer`, `PairListing` | the same union-find in linked objects, and the listing of all similar pairs |
| `StableSort`, `Lists` | the linked-list merge sort against the unique stable sort |
| `UniqueRand`, `Datasets` | drawing without replacement, and the two functions of `src/main.c` that fill arrays with it |
| `Vocabulary` | the numbering of words in `src/ml.c` |
| `Regression`, `IndependentJobs`, `LogReg` | what a training step does to the model, jobs that share a memory, and logistic regression with and without the scheduler |
| `NumberGrammar`, `Tokenizer` | the JSON number rule against the grammar of section 6 of RFC 8259, on the tokenizer's buffer and stream |
| `Wrappers`, `Collections` | shared definitions |

The style is the same throughout. What an operation does is a function on values; the laws are lemmas about
those functions, most of them for every run; and the operation as the program has it, a method that changes
fields, array elements or links, is proved to do what the function says. `rand_r` is two unknown functions of
the seed (the number it returns and the seed it leaves), keys, values and job routines are abstract, and every
random choice and every order of threads is arbitrary.

`dafny verify dfyconfig.toml` checks everything.

## Where the program does not do what one might expect

Each of these is proved, with the exact condition under which the expected property holds.

* `htab_put` does not look for the key. Putting a key that is already there hides one of the two entries;
  `PutThenGet` says which.
* `htab_get` of an absent key ends exactly when the key's path meets a clear bucket (`HaltsIff`). Tombstones
  are never clear, so it can go on for ever, with any hash function (`SearchCanLoop`).
* `htab_rehash` goes on when a put fails, so growing a table can lose an entry (`RehashCanLose`). The map
  survives exactly when nothing was lost (`RehashIntoClear`, `Dict.Put`). Keys with one hash share one path, so
  no table holds more than 32 of them (`AtMostMaxProbesPerHash`), and `dict_put` of one more never leaves the
  map it should (`CrowdedPutLoses`).
* A worker that wakes spuriously before `js_create` returns posts to the start-up barrier a second time, so the
  master can pass it early, and its next `js_execute_all_jobs` then returns with the mutex locked
  (`EarlyWakeLeaks`). This can happen exactly when `js_create` returned before all workers were waiting
  (`LeakIff`), and not without such a wake-up (`NoEarlyWakeNoLeak`).
* A forced or mid-cycle submission into a full queue can wait for room while it holds the mutex that making
  room needs (`FullSubmitNeverReturns`, `ForcedSubmitHangs`). When `js_submit_job` is called, it can hang exactly
  if it is forced or a cycle is on, the queue is full, and a worker waits or none can take a job
  (`SubmitHangsIff`); it can succeed exactly if the queue has room, or can hold a job and a cycle is on (`SubmitSucceedsIff`).
* `js_wait_all_jobs` has a second exit that reads the waiting queue without the lock and can be taken while a job
  runs (`SecondExitCanMissAJob`). While the running queue has never overflowed, the call can return too early
  exactly if a cycle is on and jobs are waiting when it is made (`WaitAllReturnsEarlyIff`). `lr_predict` and
  `lr_train` call it in that state whenever they have a job at all (`WaitAllAfterExecute`): `lr_train` then waits
  for each of its jobs in `js_get_return_val`, which is safe (`WaitJobWaits`), but `lr_predict` returns `Ps`
  without waiting again.
* Between cycles `js_wait_all_jobs` never returns while jobs wait (`WaitAllReturnsIff`), and `js_wait_job` never
  returns for a job that has not been started (`WaitJobReturnsIff`).
* `js_join_threads` waits at the start-up barrier for one more post. In a scheduler that has run no cycle only a
  worker that wakes without cause makes it (`JoinNeedsWakeUp`, `NewSchedulerNeedsWakeUp`). Given such wake-ups, it
  can come to its end exactly when no call has left the mutex locked (`JoinCompletesIff`).
* `ll_sort` is the stable sort of the *reversed* list (`SortIsStable`), so it is stable itself only when no two
  nodes tie (`StableIffNoTies`).
* `ml_init_vocabulary_from_json_bow_set` takes the shrinking load of the set as its loop bound and so processes
  only the first (N + 1) / 2 of N entries (`InitVocabulary`).
* A word lost by a growing dictionary leaves a gap in the numbering. The positions are a bijection throughout
  exactly when every turn loses only words with the last numbers, or none (`NumberedThroughoutIff`).
* At the end of the input `is_number` gives a NUL back to the stream, which is never read (`IsNumber`).

## Model

| member | source | states |
|---|---|---|
| ProbeTable.PresentStops | src/hash.c:59-98 | Although the seed overwrites `hash` at every probe, the probe that placed a stored key is one of the first 32 and is the first at which a search for that key stops, at its own bucket. |
| ProbeTable.FirstStopDecides | src/hash.c:80-98 | Where the search first stops decides membership both ways: at a match if and only if the key is stored, and then at the only bucket holding it. |
| ProbeTable.HaltsIff | src/hash.c:86-94 | The unbounded search loop ends if and only if the key is stored or its path meets a clear bucket; tombstones do not end it. |
| ProbeTable.SearchCanLoop | src/hash.c:86-94 | For every hash function and generator, a sound table of one tombstone on which the search for an absent key goes on for ever. |
| ProbeTable.FirstFree | src/hash.c:63-75 | The first of 32 probes whose bucket is clear or a tombstone: all earlier ones are occupied, and 32 means that none can take the entry. |
| ProbeTable.PutRefines | src/hash.c:59-78 | Putting an absent key adds exactly that key to the map when it fits and changes nothing otherwise; every entry stays reachable, tombstones being reused. |
| ProbeTable.PutThenGet | src/hash.c:59-98 | After a put without a look-up, the search stops at the new entry if and only if the key was absent or its old entry lies behind the new one on the path. |
| ProbeTable.SetValRefines | src/hash.c:100-110 | Changing a value in place changes that key of the map and leaves every entry reachable. |
| ProbeTable.BuryRefines | src/hash.c:124-134 | Marking a bucket deleted removes exactly its key from the map, and every other entry stays reachable past the tombstone. |
| ProbeTable.PerformRefines | src/hash.c:59-134 | Insertion of an absent key, update and deletion each keep the probe-chain invariant and do to the map what the same operation on a plain map does. |
| ProbeTable.RunRefines | src/hash.c:59-134 | Every legal run of operations on a table is the same run on a map, with the failures of full paths accounted for. |
| ProbeTable.SearchAfterRun | src/hash.c:80-98 | After any run from the empty table a search that ends gives the map's answer: the latest value of a present key, found within 32 probes, and nothing for a deleted one. |
| Clashes.AtMostMaxProbesPerHash | src/hash.c:63-75 | Whatever its capacity, a table holds at most 32 keys that share a hash. |
| Clashes.ThirtyTwoShareAHash | src/hash.c:59-78 | The bound is attained: a legal run from the empty table that stores 32 keys of one hash. |
| Clashes.CrowdedPutLoses | src/hash.c:272-301 | `dict_put` of a key that would be the 33rd of its hash never leaves the old map with the key added, however often it rehashes: if the put succeeds at all, a rehash has lost an entry. |
| Clashes.NeverCrowded | src/hash.c:272-301 | A dictionary never stands for a map with more than 32 keys of one hash. |
| Traversal.VisitsExactly | src/hash.c:164-178 | A traversal visits exactly the occupied buckets from its state on, in increasing order. |
| Traversal.VisitsAhead | src/hash.c:164-178 | Changing or deleting buckets already visited does not change what is still to come. |
| Traversal.VisitsCount | src/hash.c:164-178 | A full traversal visits as many buckets as there are entries, which is `buf_load`. |
| Traversal.KeysOnce | src/hash.c:164-178 | A traversal hands out every stored key exactly once and no other. |
| Rehashing.RehashRefines | src/hash.c:136-149 | A rehash gives the new table its own entries plus every old entry whose put did not fail. |
| Rehashing.RehashIntoClear | src/hash.c:136-149 | Into a clear table: the new map equals the old one if and only if no put failed, is never more than it, and no tombstone is left. |
| Rehashing.RehashCanLose | src/hash.c:144 | A concrete table, hash function and generator for which doubling the capacity loses an entry. The generator of this witness leaves its seed as it is, which the library's `rand_r` does not; for any generator, what is lost is exactly what `RehashIntoClear` says. |
| HashTable.HashTable.Probe | src/hash.c:59-75 | The probing loop stops at the first free bucket of the path with the seed of that probe in `hash`. |
| HashTable.HashTable.Put | src/hash.c:59-78 | The buffer afterwards is the specified one. An absent key is added to the map exactly when the call succeeds; a key already stored then stands in the table twice. |
| HashTable.PutOutcomes | src/hash.c:59-78 | What a put makes of a sound table, whether the key was stored or not: soundness and map for an absent key, a repeated key otherwise, and no change when it does not fit. |
| HashTable.HashTable.Search | src/hash.c:80-98 | The search loop stops at the first bucket of the path that is clear or matches, and returns it if it matches. |
| HashTable.HashTable.Get | src/hash.c:80-98 | Finds a bucket if and only if the key is stored, and then the one that holds its value. |
| HashTable.HashTable.SearchWithin | src/hash.c:80-98 | The same loop on any table and key, followed for a given number of probes: it stops where the search does, or the search does not stop within them. |
| HashTable.HashTable.GetWithin | src/hash.c:80-98 | So followed, an `htab_get` that ends says whether the key is stored and finds its value. |
| HashTable.HashTable.Update | src/hash.c:100-110 | A stored key's value is mutated in place; an absent key gets the default, if a place is found. |
| HashTable.HashTable.Del | src/hash.c:124-134 | Removes exactly the key; the value stays readable in the bucket returned. |
| HashTable.HashTable.RehashInto | src/hash.c:136-149 | The loop over the buffer leaves in the new table exactly what the rehash function says, failed puts included. |
| HashTable.HashTable.IterateR | src/hash.c:164-178 | Returns the next bucket of the traversal and the state from which the rest of it follows. |
| Dict.Grown | src/hash.c:280-284 | The key size is doubled until it suffices, and to less than twice what was wanted. |
| Dict.GrownDoubles | src/hash.c:280-284 | The key size is the old one times a power of two, and half of it would not have sufficed. |
| Dict.RetriedRefines | src/hash.c:296-298 | However often the table is rehashed into one four times as large, no entry is added or changed, and all are kept if and only if no turn dropped one. |
| Dict.PutOutcome | src/hash.c:272-301 | The map after `dict_put` is within the old map plus the new key, and equal to it if and only if no rehash lost an entry and the put succeeded. |
| Dict.PutInRefines | src/hash.c:272-301 | `dict_put` as a function of the dictionary and the number of retries: what it leaves is sound and within the old map plus the key, and equal to it if and only if the put succeeds and no rehash of the call loses an entry. |
| Dict.PlannedCapIs | src/hash.c:286-290 | The capacity is doubled exactly when one more entry would exceed the load factor times the capacity. |
| Dict.PutInLength | src/hash.c:286-298 | The capacity left is the planned one times four for every retry. |
| Dict.StaysPut | src/hash.c:276-296 | With a short enough key, a load within the load factor and a place for the key, `dict_put` neither rehashes nor retries. |
| Dict.LoadKept | src/hash.c:286-290 | One more entry within the planned capacity keeps `buf_load <= max_load_factor * buf_cap`. |
| Dict.Dict.ForceRehash3 | src/hash.c:357-365 | A table of the new capacity and key size takes over with what the rehash left in it. |
| Dict.Dict.Prepare | src/hash.c:272-294 | A longer key or too high a load replaces the table by the planned rehash of it; otherwise table and buffer stay. |
| Dict.Dict.PutOrRetry | src/hash.c:296-298 | The table left is the prepared one after some number of retries with the key put in, and no table before it took the key. |
| Dict.Dict.Put | src/hash.c:272-301 | For an absent key: the dictionary becomes what `PutIn` says after the least number of retries with which the key fits; the map never exceeds the old one plus the key and equals it exactly under the stated condition; the load bound is kept; and a key that needs no rehash and fits goes into the table that is there. |
| Queue.Queue.Enqueue | src/queue.c:34-38 | The item goes behind the others; the ring's `rear` stays at `(front + counter) % buf_sz`. |
| Queue.Queue.Dequeue | src/queue.c:40-45 | The first item leaves, and the others keep their order. |
| Queue.Queue.QueueEnqueue | src/queue.c:111-131 | Without synchronisation: refused exactly when the queue is full, else appended. |
| Queue.Queue.QueueDequeue | src/queue.c:133-153 | Without synchronisation: fails exactly when empty, leaving the caller's item alone. |
| Semaphore.BarrierWaitsForAll | src/semaphore.c:18-63 | Whatever the order of events, the wait on a semaphore started at 1 - n returns only after n posts, and parks unsignalled only while there were fewer. |
| Semaphore.Semaphore.SemPost | src/semaphore.c:55-63 | The fields change as a post of the model, and the signal reaches a parked thread only from value 0 on. |
| Semaphore.Semaphore.SemWait | src/semaphore.c:39-53 | The thread gets through at once exactly when the decreased value is not negative. |
| SchedulerTheorems.ReadyCountsWaiting | src/job_scheduler.c:73-82 | In every reachable state `ready` is the number of workers in the wait. |
| SchedulerTheorems.LeakIff | src/job_scheduler.c:272-284 | From the state in which `js_create` returns, some run makes `js_execute_all_jobs` return with the mutex locked if and only if `ready` differed from the number of threads there. |
| SchedulerTheorems.NoEarlyWakeNoLeak | src/job_scheduler.c:69-82 | Without a wake-up during start-up, between cycles every worker waits and the mutex is never left locked. |
| SchedulerTheorems.EarlyWakeLeaks | src/job_scheduler.c:200-208 | A run of two workers with one spurious wake-up in which the first `js_execute_all_jobs` keeps the mutex. |
| SchedulerTheorems.CycleEndsQuiescent | src/job_scheduler.c:73-98 | When a worker clears `working`, nothing waits, every other worker waits, and every job submitted so far has run and been announced. |
| SchedulerTheorems.OrderAndConservation | src/job_scheduler.c:88-98 | Jobs start in submission order, each once; and submitted = collected ++ running ++ waiting if and only if the running queue was never full when a job started. |
| SchedulerTheorems.UnlockedSubmitIsAlone | src/job_scheduler.c:232-238 | During the part of a submission that runs without the mutex no worker touches the queues, so the place it found free is still free. |
| SchedulerTheorems.FullSubmitNeverReturns | src/job_scheduler.c:219-231 | A forced or mid-cycle submission that has the mutex, sees a waiting worker and finds the queue full stays there in every continuation, and its job is never queued. |
| SchedulerTheorems.WaitJobNotBlocked | src/job_scheduler.c:286-302 | The master waiting for a job already announced can go on, and for a job whose routine is over only the announcement is outstanding: one post suffices. |
| SchedulerTheorems.CollectedComplete | src/job_scheduler.c:304-327 | Every job the master has collected and is done waiting for is complete. |
| SchedulerTheorems.WaitAllFirstExit | src/job_scheduler.c:308-311 | Leaving where both queues were seen empty under the lock means all submitted jobs are complete, if the running queue never overflowed. |
| SchedulerTheorems.WaitAllSecondExit | src/job_scheduler.c:316-321 | Where the waiting queue is read unlocked, the only jobs that can be incomplete are those that entered the running queue since it was found empty. |
| SchedulerTheorems.SecondExitCanMissAJob | src/job_scheduler.c:316-321 | A run in which that exit is taken while a job is still running. |
| SchedulerTheorems.ExitedMeansDrained | src/job_scheduler.c:83-87 | Once a worker has exited, in every continuation the waiting queue is empty and no job is submitted any more. |
| SchedulerTheorems.ShutdownDrains | src/job_scheduler.c:83-98 | Once all workers have exited, which `ShutdownCompletes` says can always come about, every submitted job has started, completed and been announced, each exactly once. |
| SchedulerTheorems.JoinWaitsIff | src/job_scheduler.c:103-110 | `js_join_threads` parks at the barrier if and only if no more posts have been made than there are threads, a worker posting each time it goes to wait. |
| SchedulerProgress.CycleCanEnd | src/job_scheduler.c:73-98 | From every reachable state in a cycle with the mutex free, the workers alone can bring the cycle to its end, and then every job submitted is complete and announced. |
| SchedulerCalls.WaitJobWaits | src/job_scheduler.c:286-302 | In every run, when `js_wait_job` returns, the job it was called for is complete. |
| SchedulerCalls.WaitJobReturnsIff | src/job_scheduler.c:286-302 | Some run makes `js_wait_job` return if and only if, at the call, the job has been started or waits in a cycle. |
| SchedulerCalls.WaitJobNeverBlocked | src/job_scheduler.c:286-302 | And then it can return from every state the call can come to. |
| SchedulerCalls.WaitAllReturnsIff | src/job_scheduler.c:304-327 | Some run makes `js_wait_all_jobs` return if and only if, at the call, a cycle is on or no job waits. |
| SchedulerCalls.WaitAllReturnsEarlyIff | src/job_scheduler.c:304-327 | In every reachable state in which it can be called and the running queue has never overflowed: some run makes `js_wait_all_jobs` return with a submitted job incomplete if and only if a cycle is on and jobs are waiting at the call. |
| SchedulerCalls.WaitAllAfterExecute | src/logreg.c:107-108 | Called right after `js_execute_all_jobs` has started a cycle, it can return early if and only if there is a job at all. |
| SchedulerCalls.SubmitSucceedsIff | src/job_scheduler.c:216-240 | Some run makes `js_submit_job` return with the job queued if and only if, at the call, the queue has room or a cycle is on and the queue can hold a job. |
| SchedulerCalls.SubmitHangsIff | src/job_scheduler.c:216-240 | Some run leaves it waiting for room with the mutex held if and only if, at the call, it is forced or a cycle is on, the queue is full, and a worker waits, no cycle is on, or the queue can hold nothing. |
| SchedulerCalls.LockedSubmitIff | src/job_scheduler.c:228-231 | Past the point where it has the mutex and sees a waiting worker, it can return with its job queued if and only if there is room. |
| SchedulerCalls.ForcedSubmitHangs | src/job_scheduler.c:216-231 | A reachable state in which a second, forced submission can hang and can do nothing else. |
| SchedulerLife.CreateCanReturn | src/job_scheduler.c:185-209 | From every state `js_create` can come to, it can return. |
| SchedulerLife.ShutdownCompletes | src/job_scheduler.c:73-115 | From every reachable state in which `js_join_threads` has set `exit`, the workers can take all jobs still waiting and exit, and it can join them all; then every job submitted is complete. |
| SchedulerLife.JoinCompletesIff | src/job_scheduler.c:103-115 | From its call `js_join_threads` can come to that end if and only if no `js_execute_all_jobs` has left the mutex locked. |
| SchedulerLife.JoinNeedsWakeUp | src/job_scheduler.c:103-105 | Called while every worker is in its first wait, it parks, and nothing can happen but that a waiting worker wakes. |
| SchedulerLife.NewSchedulerNeedsWakeUp | src/job_scheduler.c:103-105 | A reachable state of this kind: a scheduler just created. |
| SchedulerInvariant.ControlKept | src/job_scheduler.c:69-99 | Every step keeps the relations between flags, counters, queues and the places of the threads. |
| SchedulerInvariant.FateKept | src/job_scheduler.c:88-98 | Every step keeps the account of each job: started ones are held by exactly one worker or complete, and announced at most once. |
| Scheduler.Scheduler.WorkerSection | src/job_scheduler.c:72-99 | One turn of a worker with the mutex, on the fields and ring buffers, is the worker's step of the model, with the same outcome. |
| Scheduler.Scheduler.SubmitJob | src/job_scheduler.c:228-237 | The job goes to the end of the waiting queue if there is room. |
| Scheduler.Scheduler.ExecuteAllJobs | src/job_scheduler.c:272-284 | Starts a cycle exactly when none runs and all workers are ready; leaves the mutex locked exactly when neither a cycle runs nor all are ready. |
| Scheduler.Scheduler.Collect | src/job_scheduler.c:316-319 | Takes the first running job if there is one and changes nothing else. |
| SpecForest.ShortenKeeps | src/spec_to_specs.c:36-45 | Giving an entry its grandparent as parent changes nobody's representative and lengthens no chain. |
| SpecForest.SplitKeeps | src/spec_to_specs.c:36-45 | A whole search with path splitting ends, changes nobody's representative, lengthens no chain and touches nothing but parents. |
| SpecForest.DepthUnderRank | src/spec_to_specs.c:36-45 | The chain above an id is no longer than the rank it has left below its representative. |
| SpecForest.LogarithmicChains | src/spec_to_specs.c:36-45 | 2 to the length of the chain above an id is at most the size of its clique. |
| SpecForest.AddInv | src/spec_to_specs.c:90-104 | A new id is a set of its own, and nothing else changes sets. |
| SpecForest.LinkInv | src/spec_to_specs.c:122-140 | Putting the smaller of two classes under the larger keeps chains finite and logarithmic and each representative's list exactly its class, without repetition. |
| SpecForest.MergeInv | src/spec_to_specs.c:111-147 | A merge, searches included, keeps all of that. |
| SpecForest.MergeJoins | src/spec_to_specs.c:111-147 | After a merge two ids have one representative if and only if they had one before or their classes were the two merged. |
| Partition.ConnectedLeast | src/spec_to_specs.c:110-147 | Being connected by merged pairs is contained in every equivalence that contains the pairs: the reference relation is the smallest one. |
| Partition.ExplainedExact | src/spec_to_specs.c:36-45 | When the classes are explained by the merged pairs, having one representative is the smallest equivalence containing them, both ways. |
| Partition.RunIsExact | src/spec_to_specs.c:36-147 | After any adds, merges and searches: one representative if and only if related by the smallest equivalence of the merged pairs; the representative's list is exactly that class; the chain is logarithmic in it. |
| CliqueLists.LinkThreaded | src/spec_to_specs.c:133-138 | Splicing one list behind another by its tail leaves every representative's list running through exactly its ids and ending. |
| CliqueLists.AddThreaded | src/spec_to_specs.c:93-97 | A new id's list is itself alone, and the others are as before. |
| Sts.Sts.FindRoot | src/spec_to_specs.c:36-45 | On the objects: returns the entry of the representative, leaves the parents as path splitting does, and recurses once more than the chain is long. |
| Sts.Sts.StsAdd | src/spec_to_specs.c:90-104 | A new entry and a node of its own are added; the rest of the structure is as before. |
| Sts.Sts.Union | src/spec_to_specs.c:133-140 | The pointer assignments splice the lists and relink the parent exactly as the model's union, and keep the structure sound. |
| Sts.Sts.StsMerge | src/spec_to_specs.c:111-147 | The structure afterwards is the model's merge, smaller under larger, and the result is -1 exactly when the ids were together already. |
| PairListing.ListOf | src/spec_to_specs.c:133-138 | In a sound structure `similar` starts an acyclic list of distinct nodes, one for each id of the clique, `similar_len` long, whose last is `similar_tail`. |
| PairListing.NoOtherLists | src/spec_to_specs.c:137-138 | An entry that is no representative has no list, and no node is in the lists of two. |
| SimilarPairs.EachPairOnce | src/spec_to_specs.c:250-274 | Two different ids are listed together exactly once if one clique holds them and never otherwise. |
| SimilarPairs.OnlyCliquePairs | src/spec_to_specs.c:250-274 | Nothing is listed with itself or with an id of another clique. |
| SimilarPairs.AllPairsCount | src/spec_to_specs.c:250-274 | The number of pairs is the sum of k(k-1)/2 over the cliques. |
| PairBuffer.PairBuffer.Append | src/spec_to_specs.c:261-269 | The pair goes behind those listed, in an array that always has `chunks * 1000` places and is never written past them. |
| PairListing.PairsOfList | src/spec_to_specs.c:259-271 | The two loops over the links append, in order, pairs of which any two ids of the list are the subject of exactly one, none is of an id with itself, and all have relation 1; there are k(k-1)/2. |
| PairListing.TraversalEnumerates | src/spec_to_specs.c:250-253 | A traversal of the table of entries hands out each id of the structure exactly once. |
| PairBuffer.SimilarIsExact | src/spec_to_specs.c:250-274 | As entries of the array: for two different ids exactly one if one set holds both and none otherwise, each of two different ids of the structure with relation 1, and the sum of k(k-1)/2 in all. |
| PairListing.InitSimilarPairs | src/spec_to_specs.c:250-274 | Driven by the iterator of the table, while the searches shorten chains, the loop appends entries to the array that are exact in that sense for the sets as they were at the start, and leaves the sets as they were. |
| StableSort.MergeTied | src/lists.c:148-160 | A merge keeps the order within ties of each list and puts those of the second list first. |
| StableSort.SortIsStable | src/lists.c:148-177 | For every total preorder the result holds the same elements, sorted, with ties in reverse input order. |
| StableSort.StableSortUnique | src/lists.c:162-177 | A sequence has only one stable sort. |
| StableSort.SortIsTheStableSort | src/lists.c:110-177 | A sequence is the stable sort of the reversed input if and only if it is what `ll_sort` computes; after `ll_reverse` it is the stable sort of the input itself. |
| StableSort.StableIffNoTies | src/lists.c:148-177 | `ll_sort` is stable on a list if and only if no two of its nodes tie. |
| Lists.ListDistinct | src/lists.c:95-102 | A list that ends meets no node twice. |
| Lists.Push | src/lists.c:47-56 | The node becomes the head, the list behind it as it was. |
| Lists.Pop | src/lists.c:81-89 | The first node comes off unlinked, and the rest of the list stays. |
| Lists.ReverseList | src/lists.c:110-117 | Relinks the nodes in reverse order. |
| Lists.Split | src/lists.c:127-138 | The two headers get the first n nodes and the others, each as a list that ends. |
| Lists.SortMerge | src/lists.c:148-160 | Relinks the nodes of two lists into the specified merge of them. |
| Lists.SortList | src/lists.c:167-177 | The header's list afterwards is the same nodes relinked in the order of the specification; the recursion ends. |
| UniqueRand.ResultsPermute | src/unique_rand.c:45-56 | From any state, whatever is drawn, the next results are a permutation of the values left and then only the end mark. |
| UniqueRand.EachValueOnce | src/unique_rand.c:45-56 | Between resets every value of min..max is returned exactly once, then min - 1 for ever, whatever the random source. |
| UniqueRand.EveryPermutationDrawn | src/unique_rand.c:45-56 | Every permutation of min..max is what is returned for some numbers drawn. |
| UniqueRand.URand.Get | src/unique_rand.c:45-56 | The swap in the array returns the next of the specified results and leaves the state that gives the rest. |
| UniqueRand.URand.Reset | src/unique_rand.c:38-43 | All values of the range are available again, in order. |
| Datasets.GatheredPermutes | src/main.c:298-308 | Reading a sequence in the order of a permutation of its indices yields a permutation of it. |
| Datasets.MergeSet | src/main.c:337-351 | Every slot of the set is filled exactly once, so it is a permutation of the similar pairs and the different pairs that fill it up. |
| Datasets.ShuffleDataset | src/main.c:298-308 | Returns a permutation of its input: the pairs in the drawn order. |
| Vocabulary.NumberedOnto | src/ml.c:169-189 | The positions are onto: every number below the load is the position of some word. |
| Vocabulary.NumberedAfterLoss | src/ml.c:175-182 | When a dictionary loses words, the positions of the rest are a bijection onto 0 .. load - 1 if and only if the last-numbered words are the ones lost. |
| Vocabulary.EnterWord | src/ml.c:177-180 | The new word is put in at position load with count 1; nothing else is entered, and it and all others are there if and only if no rehash lost a word and the put succeeded. |
| Vocabulary.CountedAllNumbered | src/ml.c:175-187 | While no word is lost, counting any words keeps the positions a bijection onto 0 .. load - 1. |
| Vocabulary.CountsOccurrences | src/ml.c:176-184 | While no word is lost: each word is counted as often as it occurs; words already known keep their positions, and a new one takes as its position the number of words there when it first occurs. |
| Vocabulary.NumberedThroughoutIff | src/ml.c:173-188 | Over any turns of the loop, losses of the growing dictionary included: the positions are a bijection after each if and only if they were one before and each turn lost only words with the last numbers, or none. |
| Vocabulary.NothingLost | src/ml.c:173-188 | If no turn lost a word, the vocabulary is the first one with all the words counted, and a bijection stays one. |
| Vocabulary.TurnOutcome | src/ml.c:174-184 | One turn on a dictionary as a value: the words are counted as they should be if and only if no rehash of the turn loses one. |
| Vocabulary.CountsTurns | src/ml.c:173-188 | Over any turns: no word is lost in any if and only if no rehash of any turn loses one. |
| Vocabulary.AllCounted | src/ml.c:173-188 | When no rehash of any turn loses a word, all the words are counted. |
| Vocabulary.CountWord | src/ml.c:174-184 | One turn on the dictionary: a known word is found within 32 probes and its count raised by one; a new one stands at position load with count 1 beside all the others if and only if the put succeeded and no rehash of the turn lost a word. A turn is left unfinished only if the search does not stop within the probes or no put succeeds within the retries. |
| Vocabulary.InitVocabulary | src/ml.c:169-189 | Of N entries of the set the loop takes out exactly the first (N + 1) / 2 of the traversal; the dictionary goes through one determined turn for each, so all those words are counted when no rehash lost one, and the numbering stays a bijection when only last-numbered words are lost. If it does not finish, it is at the first word whose turn is blocked. |
| Vocabulary.JudgedSurvivors | src/ml.c:226-235 | Buckets judged one by one hold as a map exactly the words the rule keeps, with their counts and new idf. |
| Vocabulary.ProgressOne | src/ml.c:221-236 | Deleting or renumbering the next visited word keeps the positions of those kept increasing and without gaps. |
| Vocabulary.JudgeWord | src/ml.c:227-234 | One turn on the table: the idf is stored, and the word is deleted from the table being traversed or takes position i - c. |
| Vocabulary.IdfRemove | src/ml.c:221-236 | For any rule of removal every word is judged exactly once although the table shrinks during the traversal, and the positions of those kept are a bijection onto 0 .. load - 1 again. |
| Regression.LinSumLinear | src/logreg.c:73-82 | The linear sum is linear in the weights. |
| Regression.LinSumUnit | src/logreg.c:73-82 | With the k-th unit vector for weights it is the k-th element of the row. |
| Regression.PredictionOfBias | src/logreg.c:73-82 | With all weights zero the prediction is the sigmoid of the bias. |
| Regression.PredictionScore | src/logreg.c:73-82 | The prediction is the sigmoid of the score of the row by itself. |
| Regression.EveryScoreTurns | src/logreg.c:142-186 | A training step takes the score of every row, of the batch or not, down by the rate times the sum over the batch of error times (dot product + 1). |
| Regression.TurnedAdds | src/logreg.c:144-151 | The rows of a batch add up: each pulls as it does by itself. |
| Regression.OneRowStep | src/logreg.c:142-186 | A step on one row takes its score down by rate times error times (sum of its squares + 1), so with a positive rate towards its label. |
| Regression.StepGoesDown | src/logreg.c:142-186 | Rate times the changes of the scores weighted with the errors is minus the sum of the squares of all moves, the bias's included. |
| Regression.StepNeverClimbs | src/logreg.c:142-186 | With a positive rate the scores so weighted go strictly down, unless nothing moves. |
| Regression.NoErrorNoMove | src/logreg.c:142-186 | When every prediction equals its label, no weight and no bias moves. |
| IndependentJobs.AnyOrder | src/logreg.c:99-113 | Jobs on one shared memory: if none writes what another one sees and each depends only on what it sees, then in every interleaving each leaves there what it would have left by itself. |
| LogReg.PredictJobsApart | src/logreg.c:84-91 | On the memory with the one array `Ps`: no predicting job writes a place another one reads or writes, and each depends only on the model, its row and its own variables. |
| LogReg.PredictAlone | src/logreg.c:73-91 | A predicting job left to itself ends with the loop's value for its row in its place of `Ps`. |
| LogReg.TrainJobsApart | src/logreg.c:116-136 | No training job writes what another one sees, the predictions included, and each depends only on the rows, the predictions and its own array. |
| LogReg.TrainAlone | src/logreg.c:116-136 | A training job left to itself ends with the deltas of its row in its array. |
| LogReg.LogReg.PredictLoop | src/logreg.c:93-98 | The loop path fills `Ps` with the predictions of the rows. |
| LogReg.LogReg.PredictJobs | src/logreg.c:84-114 | For every order of the jobs' steps on the one array `Ps` in which all complete, it ends filled with the same predictions. |
| LogReg.LogReg.DeltasLoop | src/logreg.c:140-152 | The loop path leaves the sums over the rows in `Deltas`, the bias's last. |
| LogReg.LogReg.DeltasJobs | src/logreg.c:153-175 | For every order of the jobs' steps in which all complete, adding up their arrays leaves the same sums. |
| LogReg.LogReg.Train | src/logreg.c:138-189 | With a scheduler, in whatever order the jobs ran, and without: the new weights and bias move every score as a step of gradient descent does (`StepsDown`), nothing moves without errors, and the result is the largest move of a weight. |
| LogReg.MaxAbsIs | src/logreg.c:176-188 | The result is a bound on the absolute moves of the weights and is attained, or zero. |
| NumberGrammar.AcceptedIsLongest | src/tokenizer.c:92-141 | An accepted token is a number of the grammar, no longer prefix is one, and no fraction or exponent it could have had begins behind it. |
| NumberGrammar.RecogniseExactly | src/tokenizer.c:92-141 | n characters are accepted if and only if they are the longest number at the front of the text and are not cut short by an incomplete fraction or exponent. |
| NumberGrammar.RejectsExactly | src/tokenizer.c:92-141 | The text is rejected if and only if no prefix is a number or the longest one is followed by an incomplete fraction or exponent. |
| Tokenizer.Tokenizer.SetChar | src/tokenizer.c:36-42 | Writes one place of a buffer that is doubled in time to keep another place behind it. |
| Tokenizer.Tokenizer.GetChar | src/tokenizer.c:47-58 | Returns the i-th character of what is buffered and unread together, reading at most one, and loses none; at the end of the input, NUL. |
| Tokenizer.Tokenizer.IsNumber | src/tokenizer.c:92-141 | Accepts exactly when the scan does; the token is then the accepted prefix, and token ++ stream is the input, or at its end the token is the input and a NUL has been pushed back; nothing is lost on rejection. |

## Left out

- Dict.Dict.Put: the retry loop of `dict_put` has no bound; the model bounds it by a parameter and says what is left after that many turns. The key must be absent, as its callers see to.
- Vocabulary.InitVocabulary: follows each `dict_get` for a given number of probes and each `dict_put` for a given number of retries, and says nothing about a run in which one of them does not end within these.
- HashTable.HashTable.Search: asks for a hypothesis that the search ends; `ProbeTable.HaltsIff` says exactly when it does, and `SearchWithin` asks for nothing.
- HashTable.HashTable.Get: the same hypothesis; `GetWithin` does without.
- HashTable.HashTable.Update: the same hypothesis, for its look-up.
- HashTable.HashTable.Del: the same hypothesis, for its look-up.
- Sts.Sts.StsAdd: asks that the id be new; the program would enter a second record under the same id without noticing.
- LogReg.LogReg.Train: over the reals; rounding, and with it the order of additions, is not modelled. That all jobs have completed is a hypothesis on the schedules: `js_wait_all_jobs` alone does not give it (`SchedulerCalls.WaitAllAfterExecute`), and a job refused by a full queue never runs.
- Tokenizer.Tokenizer.IsNumber: the text before its first NUL only, and of a text that could be a number at most the first character may already be buffered, which is how the earlier rules leave it.
- Key sizes beyond their choice of hash function: keys are values, so truncation of a key on copying is not modelled.
- The dictionary of `src/spec_to_specs.c` is a map from ids to entries, and a table with its iterator only where it is traversed; how it grows is `Dict`.
- `malloc`, `free`, `realloc` failures, the byte layout of entries and the width of counters (`int`, `uint`, `ulong`), except for the 32-bit seed.
- Scheduler: one master thread, jobs that submit no jobs, and no claim that a run must make progress (what a call can come to is stated as the existence of a run). Signals are not modelled: a waiting worker may wake at any time, as `pthread_cond_wait` allows. The semaphore's own condition variable is taken to wake only when signalled; the routine of a job and the setting of `complete` are one step.
- The different pairs (`init_different_pairs`, `sts_diff`): the loop walks the list of differences where its name suggests the clique, so no cross product is claimed.
- `split` in `src/main.c`: it passes the training pairs to all three `merge_set` calls, so the three sets are not disjoint; only `merge_set` is modelled.
- The start of training: `lr_new` and reading or writing models; `exp` and `log` are unknown functions.
- The other token rules and the JSON parser and printer, whose output is not always input to the parser (no commas between members).
- Negative indices of `ll_nth`, `ll_map`, `ll_search`, set copies with an uninitialised iterator, file and directory reading, option parsing and dot output.
