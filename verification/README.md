# Verified model of the user identity and authentication framework

The framework authenticates users through executors that drivers provide. This project models
the stateful parts of it in Dafny and proves what they keep over every run.

Each part has a state with a reference definition of every operation on it (`...State.dfy`),
the laws of that definition (`...Laws.dfy`), what each operation says and changes in terms
of the fields alone (`...Effects.dfy`), and the classes whose methods change their fields
in place and are proved equal to the reference definition, call by call. A law about runs
starts from the initial state and holds for every sequence of operations.

| part | files | system |
|---|---|---|
| attribute codec | `Tlv`, `TagSort`, `LittleEndian`, `AttributeState`, `AttributeIntegrity`, `AttributeScan`, `AttributeAcceptance`, `AttributeTermination`, `AttributeRoundTrip`, `AttributeLayout`, `AttributeAnswers`, `AuthAttributes`, `PropertyHop` | the tag-length-value encoding in which all messages travel |
| thread groups | `ThreadGroupState`, `ThreadGroupLaws`, `ThreadGroupOrder`, `ThreadGroupOvertaking`, `ThreadGroupEffects`, `ThreadGroups` | single-worker thread pools lent to transactions and re-labelled by queued tasks |
| scheduling | `CoAuthState`, `CoAuthLaws`, `CoAuthDelivery`, `CoAuthConservation`, `CoAuthEffects`, `CoAuth` | the schedule table, executor counting, timers and delivery of results |
| contexts | `UserAuthState`, `UserAuthLaws`, `UserAuthEffects`, `UserAuth` | the life of an authentication context, built on the thread groups |
| commands | `ExecutorState`, `ExecutorLaws`, `ExecutorResults`, `Executors` | asynchronous commands of an executor and its disconnection |
| edit session | `UserIdmState`, `UserIdmLaws`, `UserIdmEffects`, `UserIdm` | who may commit a credential, and when |
| drivers | `DriverManager` | driver configuration and global executor identifiers |

`Common` holds machine integers and result codes; `OrderedKeys` is iteration in key order.

## What the proofs say about the code

Some expected properties hold only under a condition. The condition is proved exact, or the
failing case is given as a lemma.

- An empty byte array does not survive decoding (frameworks/co_auth/src/auth_attributes.cpp:238-240).
  Getters agree after a hop if and only if there is none; the bytes are reproduced if and only
  if none but the signature is empty; and from the second hop on nothing changes any more.
- An array of 32- or 64-bit words may have a length whose 32-bit sum wraps: the bounds checks of
  the word readers hold, the value is stored, and the cursor jumps
  (frameworks/co_auth/src/auth_attributes.cpp:187-233). Such a buffer can be accepted without
  being a concatenation of records, and it can keep `Unpack` from returning; both are given as
  lemmas. The model has these jumps, and every outcome has its condition on the bytes: `Unpack`
  does not return exactly when the jumps lead from byte 16 back to a place where the cursor was
  before, and otherwise accepts, refuses or is undefined exactly as the place to which they lead
  says.
- `clear()` keeps the recorded tags (frameworks/co_auth/src/auth_attributes.cpp:47-55), so a later
  `Pack` reads an unset scalar exactly when some scalar recorded before was not set again since.
- A schedule's callback hears twice of one submission when an executor finishes the schedule
  from inside `OnBeginExecute` and then reports failure, and a new callback is lost when a
  stored id is submitted again. A handler keeps the balance exactly when it is `Orderly`, which
  looks at the tables, the executors' results and the Finish calls they make while being called;
  it always is when executors stay silent about their own schedule and ids are fresh. No
  schedule is ever left without a timer, with no such assumption.
- Tasks of a transaction run in posting order while it stays retained. After a release and a new
  retain, a new task can overtake exactly when tasks still wait on the old pool and another pool
  was idle; a run in which that happens is given.
- Saved callbacks and retained threads agree throughout a session of the service only if no
  callback was left over when it started: stopping drops the threads and keeps the callbacks.
- `OnFinish` answers BUSY exactly when the context's thread is gone, also after a proper
  answer; the one-answer law is therefore about the handlers.
- Finishing one enrolment ends whatever edit session there is, also when the finish is late
  and the session belongs to another schedule. It never lets that other schedule's
  authorisation be used, though: each insertion of a schedule id authorises at most one commit.
- The configuration check accepts a driver id of zero, which the header calls non-zero
  (common/executors/include/public/idriver_manager.h:28); the model follows the check.

## Model

"Reference definition" is the function of the same operation in the part's `...State` module.

| member | source | states |
|---|---|---|
| Tlv.DecodeEncode | frameworks/co_auth/src/auth_attributes.cpp:412-462 | decoding the bytes written for a value gives the value back, for all six types and every value |
| Tlv.HeaderRead | frameworks/co_auth/src/auth_attributes.cpp:178-185 | the tag and the length are read back from where a header was written, at any position |
| Tlv.EncodeAllInjective | frameworks/co_auth/src/auth_attributes.cpp:350-391 | record sequences with 32-bit lengths form a prefix code: equal bytes come from equal sequences |
| TagSort.AscendingUnique | frameworks/co_auth/src/auth_attributes.cpp:357 | two ascending tag vectors with the same occurrences are equal, duplicates included |
| TagSort.SortedDataTags | frameworks/co_auth/src/auth_attributes.cpp:357-363 | sorting commutes with skipping ROOT, DATA and SIGNATURE |
| AttributeIntegrity.ConstructorTableIsProper | frameworks/co_auth/src/auth_attributes.cpp:21-45 | the constructor types every listed tag and the signature as a byte array, and lists neither ROOT nor DATA |
| AttributeIntegrity.IntegrityOfRuns | frameworks/co_auth/src/auth_attributes.cpp:117-176 | over any calls of setters and Unpack, a value lives only in the map its table type names, and the recorded tags are exactly those with a stored value |
| AttributeIntegrity.PackIsAlwaysDefined | frameworks/co_auth/src/auth_attributes.cpp:412-462 | hence Pack never emits a scalar that was not stored, for every sequence of calls without clear() |
| AttributeIntegrity.ClearLeavesScalarsUnset | frameworks/co_auth/src/auth_attributes.cpp:47-55 | directly after clear(), which keeps the recorded tags, Pack reads an unset scalar exactly when some recorded tag is a scalar |
| AttributeIntegrity.PackAfterClear | frameworks/co_auth/src/auth_attributes.cpp:47-55 | in every run, Pack after the last clear() reads no unset scalar if and only if every scalar recorded before it was set again since |
| AttributeIntegrity.ClearedTypeIsUnset | frameworks/co_auth/src/auth_attributes.cpp:47-55 | an authentication type set and then cleared is written unset, and defined again once it is set again |
| AttributeScan.Split | frameworks/co_auth/src/auth_attributes.cpp:258-263 | every buffer is well-formed records followed by nothing or by a malformed record |
| AttributeScan.ScanStops | frameworks/co_auth/src/auth_attributes.cpp:187-233 | the first malformed record alone decides: nullptr, undefined behaviour, or, for an array of words whose length wraps, a jump of the cursor from which parsing goes on |
| AttributeAcceptance.DecidedWithinLength | frameworks/co_auth/src/auth_attributes.cpp:258-290 | if any number of iterations ends the parsing loop, as many as the buffer has bytes do, with the same result |
| AttributeAcceptance.EndlessMeansForever | frameworks/co_auth/src/auth_attributes.cpp:247-292 | the bound on iterations in the model loses nothing: Endless means that no number of iterations ends the loop |
| AttributeTermination.ReturnsUnlessRevisiting | frameworks/co_auth/src/auth_attributes.cpp:247-292 | the call does not return if and only if jumps over wrapped arrays of words lead from byte 16 to a place where the cursor was before |
| AttributeAcceptance.ScanSound | frameworks/co_auth/src/auth_attributes.cpp:247-292 | a call that returns read well-formed records up to the end, or up to the malformed record that ended it, over some number of jumps |
| AttributeAcceptance.ExactOutcome | frameworks/co_auth/src/auth_attributes.cpp:247-292 | beyond 16 bytes, a call that returns has exactly the outcome to which the bytes lead from byte 16 on |
| AttributeAcceptance.ExactAcceptance | frameworks/co_auth/src/auth_attributes.cpp:247-292 | Unpack returns the object if and only if the buffer is non-empty and is at most 16 bytes or leads to its own end |
| AttributeAcceptance.ExactRejection | frameworks/co_auth/src/auth_attributes.cpp:247-263 | Unpack returns nullptr if and only if the buffer is empty or leads to a listed record whose length is refused |
| AttributeAcceptance.ExactUndefined | frameworks/co_auth/src/auth_attributes.cpp:235-265 | the behaviour is undefined if and only if the buffer leads to an unlisted tag or to a byte array whose length wraps |
| AttributeAcceptance.PlainAcceptance | frameworks/co_auth/src/auth_attributes.cpp:247-292 | when the first malformed record, if any, is not an array of words that wraps, the call returns, and it accepts if and only if the tail from byte 16 is exactly a concatenation of well-formed records |
| AttributeAcceptance.TemplateListLoopsForever | frameworks/co_auth/src/auth_attributes.cpp:187-233 | after any 16 bytes, a template list of length 2^32 - 8 moves the cursor from 16 to 16, and the call never returns |
| AttributeAcceptance.WrappedListIsAccepted | frameworks/co_auth/src/auth_attributes.cpp:187-233 | a 40-byte buffer with a wrapping template list is accepted though its tail is not a concatenation of well-formed records |
| AttributeAcceptance.TruncatedHeader | frameworks/co_auth/src/auth_attributes.cpp:294-305 | a header cut short after well-formed records is never accepted, since the fallback 100030 fails as a length |
| AttributeRoundTrip.RoundTrip | frameworks/co_auth/src/auth_attributes.cpp:247-292 | decoding an encoding into a fresh object always succeeds; every getter then answers as before, except that an empty byte array is gone |
| AttributeRoundTrip.RoundTripIsExact | frameworks/co_auth/src/auth_attributes.cpp:238-240 | all getters answer as before if and only if no stored byte array is empty |
| AttributeRoundTrip.EmptyCallerNameIsLost | frameworks/co_auth/src/auth_attributes.cpp:235-245 | a caller name of no bytes is stored and encoded, and the accepted copy does not know it |
| AttributeRoundTrip.EveryObjectRoundTrips | frameworks/co_auth/src/auth_attributes.cpp:117-292 | the same for every object reachable by setters and Unpack, without clear(), from a new one |
| AttributeRoundTrip.FieldsAfterHop | frameworks/co_auth/src/auth_attributes.cpp:350-366 | the decoded object records the written data tags in the order they were written |
| AttributeRoundTrip.RepackIsIdentity | frameworks/co_auth/src/auth_attributes.cpp:350-391 | encoding the decoded object gives the same bytes if and only if no byte array but the signature is empty |
| AttributeRoundTrip.HopsAreStable | services/co_auth/src/coauth_manager.cpp:182-186 | without empty byte arrays any number of encode/decode hops changes neither the bytes nor any answer |
| AttributeRoundTrip.HopsSettle | services/co_auth/src/coauth_manager.cpp:182-186 | with empty byte arrays everything is settled after the first hop |
| AttributeRoundTrip.CanonicalForm | frameworks/co_auth/src/auth_attributes.cpp:350-391 | two objects have the same bytes if and only if they agree on the occurrences of data tags, on the final values and on the signature: call order is irrelevant and nothing is lost |
| AttributeRoundTrip.HeaderLengths | frameworks/co_auth/src/auth_attributes.cpp:372-388 | read back from the bytes, ROOT's length is the total size minus 8 and DATA's is the summed size of its records |
| AttributeLayout.PackLayout | frameworks/co_auth/src/auth_attributes.cpp:350-391 | byte by byte: the ROOT and DATA headers, the records of the recorded data tags in ascending order, repetitions included, each with tag, length and stored value, and the signature record at the end |
| AttributeLayout.EncodedValue | frameworks/co_auth/src/auth_attributes.cpp:394-462 | the payload of every value: one byte 1 or 0 for a bool, every 32- and 64-bit word least significant byte first, byte arrays as they are |
| AttributeLayout.DecodedValue | frameworks/co_auth/src/auth_attributes.cpp:265-348 | the value read from every payload: the bytes it begins with are that value's, all whole words are taken, any byte but zero is true |
| AttributeLayout.ReadsWord32 | frameworks/co_auth/src/auth_attributes.cpp:294-305 | four bytes are read as n if and only if they are the bytes of n, least significant first |
| AttributeLayout.ReadsWord64 | frameworks/co_auth/src/auth_attributes.cpp:317-328 | the same for eight bytes |
| AttributeLayout.BoundedReads | frameworks/co_auth/src/auth_attributes.cpp:294-328 | the readers give the bytes at the place, or 100030 and 0 when too few are left |
| AttributeLayout.WrappedWords | frameworks/co_auth/src/auth_attributes.cpp:330-348 | each word of an array is the one at its 32-bit offset, or the fallback value |
| AttributeLayout.TypeOneIsWrittenAs | frameworks/co_auth/src/auth_attributes.cpp:350-391 | the 36 bytes of an object that holds AUTH_TYPE = 1 |
| LittleEndian.DigitOf | frameworks/co_auth/src/auth_attributes.cpp:364-366 | byte i of an image is digit i of the number to the base 256 |
| LittleEndian.Weights | frameworks/co_auth/src/auth_attributes.cpp:294-328 | the number read from four or eight bytes is their sum with weights 1, 256, 256^2, ... |
| AttributeAnswers.SetEffect | frameworks/co_auth/src/auth_attributes.cpp:117-176 | a setter succeeds if and only if the table lists the tag with its type; then exactly one answer changes, to its value, and the tag is recorded once more; otherwise no answer changes |
| AttributeAnswers.ClearEffect | frameworks/co_auth/src/auth_attributes.cpp:47-55 | clear() forgets every answer and keeps the table and the recorded tags |
| AttributeAnswers.NewObjectAccepts | frameworks/co_auth/src/auth_attributes.cpp:21-45 | the tags that each setter of a new object accepts, by number |
| AttributeAnswers.AcceptedAnswers | frameworks/co_auth/src/auth_attributes.cpp:247-292 | after an accepted concatenation of records, each tag answers with the value of its last record that counts, and everything else as before |
| AttributeAnswers.WrappedArrayAnswer | frameworks/co_auth/src/auth_attributes.cpp:187-233 | an array of words whose length wraps is stored, and the cursor goes to the wrapped sum |
| AttributeAnswers.UntypedIsPassedOver | frameworks/co_auth/src/auth_attributes.cpp:265-289 | of a record whose tag has an entry of type zero only the header is passed over |
| AuthAttributes.AuthAttributes.constructor | frameworks/co_auth/src/auth_attributes.cpp:21-45 | a new object has the constructor's table and nothing stored |
| AuthAttributes.AuthAttributes.ClearValues | frameworks/co_auth/src/auth_attributes.cpp:47-55 | empties the value maps and keeps the recorded tags |
| AuthAttributes.AuthAttributes.SetBoolValue | frameworks/co_auth/src/auth_attributes.cpp:117-125 | new state and result of the setter: refused unless the table has the type, in which case value and tag are recorded; an unlisted tag gains a table entry either way |
| AuthAttributes.AuthAttributes.SetUint32Value | frameworks/co_auth/src/auth_attributes.cpp:127-136 | new state and result of the setter: refused unless the table has the type, in which case value and tag are recorded; an unlisted tag gains a table entry either way |
| AuthAttributes.AuthAttributes.SetUint64Value | frameworks/co_auth/src/auth_attributes.cpp:138-146 | new state and result of the setter: refused unless the table has the type, in which case value and tag are recorded; an unlisted tag gains a table entry either way |
| AuthAttributes.AuthAttributes.SetUint32ArrayValue | frameworks/co_auth/src/auth_attributes.cpp:148-156 | new state and result of the setter: refused unless the table has the type, in which case value and tag are recorded; an unlisted tag gains a table entry either way |
| AuthAttributes.AuthAttributes.SetUint64ArrayValue | frameworks/co_auth/src/auth_attributes.cpp:158-166 | new state and result of the setter: refused unless the table has the type, in which case value and tag are recorded; an unlisted tag gains a table entry either way |
| AuthAttributes.AuthAttributes.SetUint8ArrayValue | frameworks/co_auth/src/auth_attributes.cpp:168-176 | new state and result of the setter: refused unless the table has the type, in which case value and tag are recorded; an unlisted tag gains a table entry either way |
| AuthAttributes.AuthAttributes.GetBoolValue | frameworks/co_auth/src/auth_attributes.cpp:57-65 | succeeds exactly when a value of that type is stored, and returns it |
| AuthAttributes.AuthAttributes.GetUint32Value | frameworks/co_auth/src/auth_attributes.cpp:67-75 | succeeds exactly when a value of that type is stored, and returns it |
| AuthAttributes.AuthAttributes.GetUint64Value | frameworks/co_auth/src/auth_attributes.cpp:77-85 | succeeds exactly when a value of that type is stored, and returns it |
| AuthAttributes.AuthAttributes.GetUint32ArrayValue | frameworks/co_auth/src/auth_attributes.cpp:87-95 | succeeds exactly when a value of that type is stored, and returns it |
| AuthAttributes.AuthAttributes.GetUint64ArrayValue | frameworks/co_auth/src/auth_attributes.cpp:97-105 | succeeds exactly when a value of that type is stored, and returns it |
| AuthAttributes.AuthAttributes.GetUint8ArrayValue | frameworks/co_auth/src/auth_attributes.cpp:107-115 | succeeds exactly when a value of that type is stored, and returns it |
| AuthAttributes.AuthAttributes.Write32Array | frameworks/co_auth/src/auth_attributes.cpp:394-401 | the loop appends the image of every element in order |
| AuthAttributes.AuthAttributes.Write64Array | frameworks/co_auth/src/auth_attributes.cpp:403-410 | the loop appends the image of every element in order |
| AuthAttributes.AuthAttributes.PackToBuffer | frameworks/co_auth/src/auth_attributes.cpp:412-462 | appends length and payload of a tag; an unset scalar may be anything |
| AuthAttributes.AuthAttributes.PackSection | frameworks/co_auth/src/auth_attributes.cpp:357-370 | the loop writes the records of the sorted tags, skipping ROOT, DATA and SIGNATURE |
| AuthAttributes.AuthAttributes.Pack | frameworks/co_auth/src/auth_attributes.cpp:350-391 | the bytes are those of the reference encoding, which AttributeLayout.PackLayout describes byte by byte, and only the order of the recorded tags changes |
| AuthAttributes.AuthAttributes.GetUint32ArrayFromUint8 | frameworks/co_auth/src/auth_attributes.cpp:330-338 | the loop reads every whole word at its 32-bit offset, with the fallback value past the end |
| AuthAttributes.AuthAttributes.GetUint64ArrayFromUint8 | frameworks/co_auth/src/auth_attributes.cpp:340-348 | the loop reads every whole word at its 32-bit offset, with the fallback value past the end |
| AuthAttributes.AuthAttributes.GetUint64FromUint8 | frameworks/co_auth/src/auth_attributes.cpp:317-328 | eight bytes as a number, or zero when fewer are left |
| AuthAttributes.AuthAttributes.UnpackValue | frameworks/co_auth/src/auth_attributes.cpp:265-289 | one record is stored as the reference definition says, arrays of words also past the end of the buffer |
| AuthAttributes.AuthAttributes.UnpackBuffer | frameworks/co_auth/src/auth_attributes.cpp:247-292 | on every buffer on which the call returns, the cursor loop gives the outcome and the final state of the reference definition; ExactOutcome and AcceptedAnswers say which |
| PropertyHop.Forward | services/co_auth/src/coauth_manager.cpp:159-191 | the executor's copy answers as the caller's conditions did, up to empty byte arrays, and the caller's answers do not change |
| ThreadGroupLaws.TasksSeeTheirTransaction | common/thread_pool/thread_groups.cpp:193-233 | over every interleaving of calls and worker steps in any number of groups, each user task that runs sees the group and transaction it was posted under |
| ThreadGroupLaws.PoolsAreConserved | common/thread_pool/thread_groups.cpp:119-191 | in every reachable state created pools are divided into the idle, the retained and the destroyed ones; no pool is idle twice or in two slots, none is null, at most five are idle and no group holds more than its number |
| ThreadGroupLaws.PostNeedsOnlyASlot | common/thread_pool/thread_groups.cpp:193-215 | in every reachable state a post succeeds if and only if the transaction is retained: the null-pool branch is never taken |
| ThreadGroupLaws.InvOfRuns | common/thread_pool/thread_groups.cpp:35-104 | the ownership and label invariant holds in every reachable state |
| ThreadGroupLaws.RetainEffect | common/thread_pool/thread_groups.cpp:119-148 | when a retain succeeds, and that it adds exactly its transaction to its group |
| ThreadGroupLaws.ReleaseEffect | common/thread_pool/thread_groups.cpp:150-171 | a release removes exactly its transaction |
| ThreadGroupLaws.OtherGroupUntouched | common/thread_pool/thread_groups.cpp:61-104 | an operation on one group changes nothing of another |
| ThreadGroupLaws.TrimKeepsNewest | common/thread_pool/thread_groups.cpp:165-167 | trimming keeps the five most recently parked pools in order and destroys the others |
| ThreadGroupLaws.DestroyKeeps | common/thread_pool/thread_groups.cpp:46-59 | destroying a group parks all its pools and keeps the invariant |
| ThreadGroupLaws.StepPending | common/thread_pool/thread_groups.cpp:193-215 | no operation but a post adds a user task to a queue |
| ThreadGroupEffects.CreateEffect | common/thread_pool/thread_groups.cpp:35-44 | a group is created exactly if the name is new, empty and with its number of threads |
| ThreadGroupEffects.RetainTakesIdle | common/thread_pool/thread_groups.cpp:119-148 | a retain takes the pool idle longest, puts it in the slot, sets its limit and queues the label; no other slot, pool or queue changes |
| ThreadGroupEffects.RetainMakesPool | common/thread_pool/thread_groups.cpp:136-143 | if none is idle it makes one pool, whose only task is the label |
| ThreadGroupEffects.ReleaseGives | common/thread_pool/thread_groups.cpp:150-171 | a release succeeds exactly for a retained transaction: its pool is labelled idle and parked last, and of the idle pools the last five stay |
| ThreadGroupEffects.DestroyParks | common/thread_pool/thread_groups.cpp:46-59 | destroying labels all pools of the group idle, parks them in the order of their transactions, keeps the last five and changes no other group |
| ThreadGroupEffects.PostEffect | common/thread_pool/thread_groups.cpp:193-215 | a post adds the task, under its group and transaction, at the end of the queue of the retained pool and nowhere else |
| ThreadGroupEffects.NullSlotIsEmptied | common/thread_pool/thread_groups.cpp:204-210 | a slot with a null pool is emptied by the post, which fails |
| ThreadGroupEffects.WorkEffect | common/thread_pool/thread_groups.cpp:217-233 | a label takes effect on its own pool only; a user task is logged with the label of that moment |
| ThreadGroupOrder.TasksRunOnceInOrder | common/thread_pool/thread_groups.cpp:193-233 | in every interleaving a pool runs the tasks posted to it at most once and in posting order, and the others wait in order unless the pool was destroyed |
| ThreadGroupOrder.TransactionRunsInOrder | common/thread_pool/thread_groups.cpp:119-215 | while a transaction stays retained, exactly its tasks reach its pool; they run once, in posting order, or still wait |
| ThreadGroupOrder.RetainedAgainElsewhere | common/thread_pool/thread_groups.cpp:136-143 | retained again after a release, the transaction gets its old pool, with what waits there, if and only if no other pool was idle |
| ThreadGroupOvertaking.OvertakingNeedsAnIdlePool | common/thread_pool/thread_groups.cpp:119-215 | after a release, a new retain and a post, the new task can run while a given earlier task of the old pool still waits, if and only if another pool was idle at the release |
| ThreadGroupOvertaking.OrderAcrossARelease | common/thread_pool/thread_groups.cpp:119-215 | so the order can be broken across a release if and only if some task waits on the old pool and another pool is idle |
| ThreadGroupOvertaking.LaterTaskRunsFirst | common/thread_pool/thread_groups.cpp:119-215 | a run in which the later task of a transaction has run and the earlier one still waits |
| ThreadGroups.ThreadGroups.CreateThreadGroup | common/thread_pool/thread_groups.cpp:35-44 | result and new state agree with the reference definition |
| ThreadGroups.ThreadGroups.RetainTaskThread | common/thread_pool/thread_groups.cpp:119-148 | result and new state agree with the reference definition, whose effect is stated by the laws above |
| ThreadGroups.ThreadGroups.TrimFrees | common/thread_pool/thread_groups.cpp:165-167 | the loop that destroys idle pools agrees with the reference definition |
| ThreadGroups.ThreadGroups.ReleaseTaskThread | common/thread_pool/thread_groups.cpp:150-171 | result and new state agree with the reference definition |
| ThreadGroups.ThreadGroups.ReleaseAllTaskThread | common/thread_pool/thread_groups.cpp:173-191 | the loop over the slots in key order and the trimming agree with the reference definition |
| ThreadGroups.ThreadGroups.DestroyThreadGroup | common/thread_pool/thread_groups.cpp:46-59 | result and new state agree with the reference definition |
| ThreadGroups.ThreadGroups.PostTask | common/thread_pool/thread_groups.cpp:193-215 | result and new state agree with the reference definition |
| ThreadGroups.ThreadGroups.EnsureTransaction | common/thread_pool/thread_groups.cpp:217-233 | queues exactly one label change |
| ThreadGroups.ThreadGroups.WorkerStep | common/thread_pool/thread_groups.cpp:217-233 | one task leaves the front of the queue and takes effect |
| CoAuthLaws.NoScheduleIsLost | services/co_auth/src/coauth_manager.cpp:30-90 | in every run, with executors that may call back at any time, each stored schedule has a pending timer, awaits at least one Finish and has absorbed all others of its executors |
| CoAuthLaws.FiringEmptiesTable | services/co_auth/src/coauth_manager.cpp:226-243 | firing the pending timers of all stored schedules, in any order, empties the table |
| CoAuthConservation.StepBalance | services/co_auth/src/coauth_manager.cpp:30-65 | a handler leaves deliveries plus stored minus submissions unchanged for every id if and only if it is orderly: a condition on the tables, the executors' results and the Finish calls they make while being called |
| CoAuthConservation.BeginStored | services/co_auth/src/coauth_manager.cpp:67-90 | starting leaves the schedule stored if and only if its executors finish it less often, while being called, than it awaits |
| CoAuthConservation.EndStored | services/co_auth/src/coauth_manager.cpp:113-156 | the same for cancelling |
| CoAuthConservation.SubmissionsAreConserved | services/co_auth/src/executor_messenger.cpp:62-98 | in a run of orderly handlers every submission was delivered exactly once or is still stored |
| CoAuthConservation.CalmIsOrderly | services/co_auth/src/coauth_manager.cpp:226-243 | a handler is orderly when no executor finishes that schedule from inside the call and the submitted id is not stored |
| CoAuthConservation.CalmRunsConserve | services/co_auth/src/coauth_manager.cpp:30-65 | hence exactly-once delivery for executors that stay silent and fresh ids |
| CoAuthConservation.TimersSettleEverything | services/co_auth/src/coauth_manager.cpp:226-243 | after an orderly run, once the timers of the remaining schedules have fired, the table is empty and every submission was answered exactly once |
| CoAuthConservation.ReentrantFinishDeliversTwice | services/co_auth/src/coauth_manager.cpp:58-64 | a concrete call in which the callback hears twice of one submission |
| CoAuthConservation.ResubmissionIsLost | services/co_auth/src/auth_res_pool.cpp:47-53 | submitting a stored id again, with agreeing executors, loses the new callback |
| CoAuthLaws.EarlyFinishesAreAbsorbed | services/co_auth/src/executor_messenger.cpp:70-76 | fewer Finish calls than executors deliver nothing and only count down |
| CoAuthLaws.LastFinishDelivers | services/co_auth/src/executor_messenger.cpp:76-98 | exactly the last awaited Finish delivers: its own code and, on success only, the bytes its result holds as AUTH_RESULT, or none; without a result a failure. The schedule and its timer go |
| CoAuthLaws.AbsentFinishIsIgnored | services/co_auth/src/executor_messenger.cpp:68-83 | a Finish for an absent id delivers nothing and changes no entry, whatever the unset counter holds |
| CoAuthDelivery.ResultsReachTheSubmitter | services/co_auth/src/executor_messenger.cpp:29-98 | in every run, whatever executors do, a result or an acquired value of a schedule goes to a callback with which that schedule was submitted earlier |
| CoAuthDelivery.BeginAsksEveryone | services/co_auth/src/coauth_manager.cpp:67-90 | each registered executor of a schedule is started once and in order, even after a failure; the start succeeds if and only if all of them do |
| CoAuthDelivery.EndTellsEveryone | services/co_auth/src/coauth_manager.cpp:113-156 | each registered executor is told of the end once and in order; cancelling succeeds if and only if all of them do |
| CoAuthDelivery.RefusedStartFails | services/co_auth/src/coauth_manager.cpp:30-65 | with no executor, no pool, or a refusing executor, the callback hears of the failure last and the schedule is neither stored nor timed |
| CoAuthDelivery.TimeoutTellsEveryone | services/co_auth/src/coauth_manager.cpp:226-243 | a timeout tells the stored callback, ends all registered executors and removes the schedule |
| CoAuthEffects.FoundIsFirst | services/co_auth/src/auth_res_pool.cpp:73-91 | the executor found is that of the first registration, in key order, that has the type, and no other |
| CoAuthEffects.CallsAreRight | services/co_auth/src/coauth_manager.cpp:67-156 | every call that any handler makes carries its schedule id and goes to the executor first registered for one of that schedule's types; only starting begins, only cancelling and timeouts end |
| CoAuthEffects.StartEffect | services/co_auth/src/coauth_manager.cpp:30-90 | starting asks, once each and in order, exactly the executors first registered for the schedule's types; the last refusal is the code the callback hears |
| CoAuthEffects.ChosenIsUnique | services/co_auth/src/auth_res_pool.cpp:73-91 | registrations and types leave no choice of executors |
| CoAuthEffects.OtherTypeIsNotAsked | services/co_auth/src/auth_res_pool.cpp:73-91 | of two executors of different types, a schedule for the second type starts only the second |
| CoAuthEffects.CallComesFirst | services/co_auth/src/coauth_manager.cpp:67-90 | an executor is called before anything arrives from it |
| CoAuthEffects.StartTimer | services/co_auth/src/coauth_manager.cpp:53-65 | whatever executors finish while being asked, a stored schedule has one timer more than before and one that is not stored has none |
| CoAuthEffects.CancelEffect | services/co_auth/src/coauth_manager.cpp:113-156 | cancelling tells exactly the executors first registered for the stored schedule's types and answers with the last refusal; with no pool, id or executors it fails and does nothing |
| CoAuthEffects.FireEffect | services/co_auth/src/coauth_manager.cpp:226-243 | a timer is used up; if its schedule is stored the callback hears of the timeout first, then exactly its executors are told, and the entry goes |
| CoAuthEffects.SilentStart | services/co_auth/src/coauth_manager.cpp:30-90 | with executors silent while called: the exact table, timers and events after starting |
| CoAuthEffects.SilentCancel | services/co_auth/src/coauth_manager.cpp:113-156 | with silent executors cancelling changes nothing but what they are told |
| CoAuthEffects.SilentFire | services/co_auth/src/coauth_manager.cpp:226-243 | with silent executors: the exact table, timers and events after a timeout |
| CoAuthEffects.FinishCode | services/co_auth/src/executor_messenger.cpp:62-98 | what a Finish returns, and that it touches no other id |
| CoAuthEffects.SendDataEffect | services/co_auth/src/executor_messenger.cpp:29-60 | data reaches the callback if and only if the id is stored and there are four bytes, as the number they are, least significant byte first |
| CoAuthEffects.RegistrationEffect | services/co_auth/src/auth_res_pool.cpp:23-104 | the first registration under an id stays until it is taken back, and no other is touched |
| CoAuthEffects.ArrivalOrder | services/co_auth/src/executor_messenger.cpp:29-98 | messages are dealt with one by one, in order |
| CoAuth.AuthResPool.FindExecutorCallback | services/co_auth/src/auth_res_pool.cpp:73-91 | the loop returns c if and only if c is the callback of the first registration, in key order, that has the type |
| CoAuth.AuthResPool.InsertExecutor | services/co_auth/src/auth_res_pool.cpp:23-37 | an existing registration is kept |
| CoAuth.AuthResPool.ScheduleCountMinus | services/co_auth/src/auth_res_pool.cpp:123-142 | counts down a stored, positive counter and nothing else |
| CoAuth.AuthResPool.DeleteScheduleCallback | services/co_auth/src/auth_res_pool.cpp:178-189 | removes exactly that id |
| CoAuth.CallMonitor.MonitorCall | services/co_auth/src/call_monitor.cpp:39-49 | one more pending task of that name |
| CoAuth.CallMonitor.MonitorRemoveCall | services/co_auth/src/call_monitor.cpp:51-61 | all pending tasks of that name are gone, the others stay |
| CoAuth.CoAuthManager.Finish | services/co_auth/src/executor_messenger.cpp:62-98 | result, tables, timers and messages agree with the reference definition, which LastFinishDelivers, EarlyFinishesAreAbsorbed and FinishCode describe |
| CoAuth.CoAuthManager.SendData | services/co_auth/src/executor_messenger.cpp:29-60 | result and messages agree with the reference definition, described by SendDataEffect |
| CoAuth.CoAuthManager.BeginExecute | services/co_auth/src/coauth_manager.cpp:67-90 | the loop over executors, with `continue` for missing ones, agrees with the reference definition, described by StartEffect |
| CoAuth.CoAuthManager.CoAuthHandle | services/co_auth/src/coauth_manager.cpp:30-65 | new state and messages agree with the reference definition |
| CoAuth.CoAuthManager.Cancel | services/co_auth/src/coauth_manager.cpp:113-156 | result, new state and messages agree with the reference definition, described by CancelEffect |
| CoAuth.CoAuthManager.TimeOut | services/co_auth/src/coauth_manager.cpp:226-243 | new state and messages agree with the reference definition |
| UserAuthLaws.SavedMatchesThreads | services/user_auth/src/userauth_excallback_impl.cpp:218-248 | in every run, while the group exists, retained threads have saved callbacks and are at most four; both sets are equal when the service started with no callback saved |
| UserAuthLaws.RestartAgreesIffNothingSaved | services/user_auth/src/userauth_service.cpp:49-63 | after a restart the two sets agree if and only if no callback was saved at the stop |
| UserAuthLaws.RestartLeavesACallback | services/user_auth/src/userauth_service.cpp:49-63 | a run in which a callback is left without a thread |
| UserAuthLaws.SaveFailsOnlyForThreads | services/user_auth/src/userauth_excallback_impl.cpp:218-233 | in a clean session saving succeeds if and only if the id is non-zero, unsaved and fewer than four are saved; a failure changes nothing |
| UserAuthLaws.OneAnswerAndThenSilence | services/user_auth/src/userauth_excallback_impl.cpp:156-216 | in every run, after a callback's handlers have given an answer they give no second one and acquire nothing |
| UserAuthLaws.AnswerClearsContext | services/user_auth/src/userauth_excallback_impl.cpp:141-203 | once a handler has answered, its context, saved callback and thread are gone; otherwise nothing changed |
| UserAuthLaws.HandlersRunUnderTheirContext | services/user_auth/src/userauth_excallback_impl.cpp:92-124 | in every run a handler executes on a thread labelled with the group and the context of its own callback |
| UserAuthLaws.AnswerIsTheDrivers | services/user_auth/src/userauth_excallback_impl.cpp:141-203 | a handler closes its callback unless the driver is undecided and sessions are outstanding; the answer has the schedule's code, a token only if the driver granted one, and is followed by cancelling all the context's schedules in order |
| UserAuthLaws.CancelAuthKeepsTheThread | services/user_auth/src/userauth_service.cpp:390-421 | cancelling succeeds exactly for a known context the driver lets go; it cancels the schedules in order and forgets the context, but keeps callback and thread until the next answer |
| UserAuthLaws.AuthUserTellsItsClient | services/user_auth/src/userauth_service.cpp:301-359 | AuthUser hands every schedule over in order or tells the client of the refusal exactly once |
| UserAuthLaws.BusyIffThreadGone | services/user_auth/src/userauth_excallback_impl.cpp:92-110 | OnFinish answers BUSY if and only if no thread is retained for the context |
| UserAuthLaws.LateFinishIsBusy | services/user_auth/src/userauth_excallback_impl.cpp:103-109 | so a finish that arrives after the answer gives the client a second result |
| UserAuthLaws.AuthUserBookkeeping | services/user_auth/src/userauth_service.cpp:301-388 | AuthUser returns a context if and only if the request is granted; it then adds exactly that non-zero, previously absent context with the schedule ids in order, and otherwise leaves the table as it was |
| UserAuthLaws.SaveEffect | services/user_auth/src/userauth_excallback_impl.cpp:218-233 | when saving a callback succeeds in any state, and what it adds |
| UserAuthLaws.AgreementOfRuns | services/user_auth/src/userauth_excallback_impl.cpp:218-248 | the agreement of saved callbacks and threads holds in every reachable state |
| UserAuthLaws.OwnedOfRuns | services/user_auth/src/userauth_excallback_impl.cpp:92-124 | every queued task of the service belongs to a callback of the context it is queued under, in every reachable state |
| UserAuthEffects.DecidedEffect | services/user_auth/src/userauth_excallback_impl.cpp:156-203 | everything a decided finish says and drops, in order: freezing for a locked PIN, thawing for a granted PIN, the answer with code, token, remaining attempts and freezing time, the cancellations; only its own context, callback and thread go |
| UserAuthEffects.FreezeAndThaw | services/user_auth/src/userauth_excallback_impl.cpp:126-203 | templates are frozen if and only if the code is LOCKED and the type PIN, thawed if and only if the driver granted an uncancelled PIN, each once and before the answer |
| UserAuthEffects.UndecidedEffect | services/user_auth/src/userauth_excallback_impl.cpp:169-187 | an undecided finish only counts, unless it is the last session expected; then an error is answered and everything of the context goes, without cancellations |
| UserAuthEffects.AcquireEffect | services/user_auth/src/userauth_excallback_impl.cpp:205-216 | exactly one message with the value, unless the callback is done |
| UserAuthEffects.NotifyEffect | services/user_auth/src/userauth_excallback_impl.cpp:92-124 | a notification adds its call at the end of the queue of its context's thread and changes nothing else; without a thread it closes the callback and answers BUSY for a finish |
| UserAuthEffects.PostedCallRuns | services/user_auth/src/userauth_excallback_impl.cpp:92-124 | on an idle thread the worker's next step runs exactly the handler just posted |
| UserAuthEffects.RefusalCodes | services/user_auth/src/userauth_service.cpp:301-388 | the code of every refusal, by number, in the order of the checks |
| UserAuthEffects.SaveTakesAThread | services/user_auth/src/userauth_excallback_impl.cpp:218-233 | saving takes a thread whenever there is room, also when it then fails because a callback is already saved |
| UserAuthEffects.ForgetEffect | services/user_auth/src/userauth_excallback_impl.cpp:235-248 | forgetting drops exactly the callback and the thread of the context; success says there was a callback |
| UserAuthEffects.CancelAuthCodes | services/user_auth/src/userauth_service.cpp:390-421 | the code of every cancellation; the driver is asked only for a permitted, known context |
| UserAuthEffects.CopiesInOrder | services/user_auth/src/userauth_adapter.cpp:180-249 | the copied schedules keep number, order, ids and the types of their executors |
| UserAuthEffects.NewCallbacks | services/user_auth/src/userauth_excallback_impl.cpp:75-90 | a new callback object is open, has counted nothing and is added last |
| UserAuthEffects.StartAndStop | services/user_auth/src/userauth_service.cpp:49-63 | starting makes a group of four threads once, stopping removes it; saved callbacks and contexts stay |
| UserAuth.FirstUsableDraw | services/user_auth/src/userauth_datamgr.cpp:49-62 | the identifier is that of the first successful draw of a non-zero identifier that no context has |
| UserAuth.UserAuthDataMgr.AddContextId | services/user_auth/src/userauth_datamgr.cpp:36-47 | adds an absent id with no schedules, or changes nothing |
| UserAuth.UserAuthDataMgr.GenerateContextId | services/user_auth/src/userauth_datamgr.cpp:49-62 | the loop returns the first identifier held after a draw that is non-zero and unused; a failed draw re-examines the previous one |
| UserAuth.UserAuthDataMgr.DeleteContextId | services/user_auth/src/userauth_datamgr.cpp:64-74 | removes exactly that id |
| UserAuth.UserAuthDataMgr.SetScheduleIds | services/user_auth/src/userauth_datamgr.cpp:76-86 | stores the ids for an existing context only |
| UserAuth.UserAuthDataMgr.GetScheduleIds | services/user_auth/src/userauth_datamgr.cpp:88-98 | returns the ids of an existing context |
| UserAuth.CopyScheduleInfo | services/user_auth/src/userauth_adapter.cpp:180-209 | the loop copies the schedule if and only if it has executors, a template and full-size keys |
| UserAuth.UserAuthService.SaveCoAuthCallback | services/user_auth/src/userauth_excallback_impl.cpp:218-233 | result and new state agree with the reference definition |
| UserAuth.UserAuthService.DeleteCoAuthCallback | services/user_auth/src/userauth_excallback_impl.cpp:235-248 | result and new state agree with the reference definition |
| UserAuth.UserAuthService.GenerateSolution | services/user_auth/src/userauth_adapter.cpp:211-249 | the loop stores all ids in order or fails, and the schedules are copied in order |
| UserAuth.UserAuthService.CoAuth | services/user_auth/src/userauth_adapter.cpp:450-478 | saves the callback, then hands over every schedule in order |
| UserAuth.UserAuthService.GetControllerData | services/user_auth/src/userauth_service.cpp:361-388 | refuses a trust level out of range, else adds the first usable identifier |
| UserAuth.UserAuthService.AuthUser | services/user_auth/src/userauth_service.cpp:301-359 | result and new state agree with the reference definition for the identifier drawn, which on success is the first usable draw |
| UserAuth.UserAuthService.CancelAuth | services/user_auth/src/userauth_service.cpp:390-421 | result, cancellations and new table agree with the reference definition |
| UserAuth.UserAuthCallbackImplCoAuth.constructor | services/user_auth/src/userauth_excallback_impl.cpp:75-90 | a new callback is open and has counted nothing |
| UserAuth.UserAuthCallbackImplCoAuth.DealFinishData | services/user_auth/src/userauth_excallback_impl.cpp:141-154 | cancels the context's schedules in order, then drops context, callback and thread |
| UserAuth.UserAuthCallbackImplCoAuth.OnFinishHandle | services/user_auth/src/userauth_excallback_impl.cpp:156-203 | new states and messages agree with the reference definition, described by DecidedEffect and UndecidedEffect |
| UserAuth.UserAuthCallbackImplCoAuth.OnAcquireInfoHandle | services/user_auth/src/userauth_excallback_impl.cpp:205-216 | tells the client unless the callback is done |
| UserAuth.UserAuthCallbackImplCoAuth.OnFinish | services/user_auth/src/userauth_excallback_impl.cpp:92-110 | posts the handler, or answers BUSY and closes the callback |
| UserAuth.UserAuthCallbackImplCoAuth.OnAcquireInfo | services/user_auth/src/userauth_excallback_impl.cpp:112-124 | posts the handler, or closes the callback |
| ExecutorLaws.MessagesOfACommand | common/executors/src/async_command/auth_command.cpp:56-87 | in every run a command sends data numbered 1, 2, 3, ... modulo 2^32, then at most one result and nothing after it; a command that sent anything is finished if and only if it sent a result |
| ExecutorLaws.DisconnectAnswersEveryCommand | common/executors/src/executor.cpp:55-60 | in every run, whatever the order of the walk, disconnection finishes every registered and every granted command, sends exactly one error result for each registered one with a messenger, leaves the others as they were and empties the set |
| ExecutorLaws.RespondAllEffect | common/executors/src/executor.cpp:113-128 | the same for any state of the invariant, message by message |
| ExecutorLaws.RefusedAfterDisconnect | common/executors/src/async_command/async_command_base.cpp:51-67 | a request after disconnection is refused, sends nothing and leaves nothing in the set |
| ExecutorLaws.StaysDisconnected | common/executors/src/executor.cpp:48-60 | an executor once disconnected stays so |
| ExecutorLaws.InvOfRuns | common/executors/src/async_command/async_command_base.cpp:44-107 | the invariant on commands, set and messages holds in every reachable state |
| ExecutorResults.FirstResultIsReported | common/executors/src/async_command/auth_command.cpp:56-71 | in every run a command with a messenger reports exactly one result, the first that reaches it, with that code, be it the driver's or the error of a disconnection; it is finished if and only if one reached it |
| ExecutorResults.OneResult | common/executors/src/async_command/async_command_base.cpp:69-85 | a result on an unfinished command adds exactly one Finish with its code, if there is a messenger; on a finished one it does nothing; no other command is concerned |
| ExecutorResults.OneAcquire | common/executors/src/async_command/async_command_base.cpp:87-95 | data goes out with the current number while the command is unfinished, and the number advances |
| ExecutorResults.ProcessEffect | common/executors/src/async_command/async_command_base.cpp:51-67 | when a request is refused and with what code, and that an accepted command is registered exactly until its result |
| ExecutorResults.RegisteredIsGrantedAndOpen | common/executors/src/async_command/async_command_base.cpp:51-107 | in every run, while the executor lives, the commands to answer on disconnection are exactly the granted ones without a result |
| Executors.AuthCommand.OnResult | common/executors/src/async_command/async_command_base.cpp:75-85 | new state and messages agree with the reference definition, described by OneResult: the first result, with its code |
| Executors.AuthCommand.OnAcquireInfo | common/executors/src/async_command/async_command_base.cpp:87-95 | new state and messages agree with the reference definition |
| Executors.AuthCommand.EndProcess | common/executors/src/async_command/async_command_base.cpp:97-107 | leaves the set unless the executor is gone |
| Executors.AuthCommand.OnHdiDisconnect | common/executors/src/async_command/async_command_base.cpp:44-49 | ends the command with an error result |
| Executors.AuthCommand.StartProcess | common/executors/src/async_command/async_command_base.cpp:51-67 | result and new state agree with the reference definition |
| Executors.Executor.ProcessAuthCommand | common/executors/src/framework/framework_executor_callback.cpp:174-180 | result and new state agree with the reference definition |
| Executors.Executor.RespondCallbackOnDisconnect | common/executors/src/executor.cpp:113-128 | the loop visits every command of the set once although each removes itself meanwhile |
| Executors.Executor.OnHdiDisconnect | common/executors/src/executor.cpp:55-60 | new state agrees with the reference definition for the order walked |
| UserIdmLaws.EveryCommitIsAuthorised | services/user_idm/src/useridm_coauth_handler.cpp:39-120 | in every run a commit happens while the module holds a challenge and exactly the committing handler's non-zero id, which was inserted under that same challenge with no insertion or commit since: one insertion authorises at most one commit |
| UserIdmLaws.SecondCommitNeedsSecondInsertion | services/user_idm/src/useridm_controller.cpp:117-237 | two commits of one id have a fresh insertion of it in between, so with fresh ids there is at most one |
| UserIdmLaws.CommitsCarryTheHandlersId | services/user_idm/src/useridm_coauth_handler.cpp:98-106 | the id of a commit is the one its handler was created with |
| UserIdmLaws.ActiveSessionIsBusy | services/user_idm/src/useridm_controller.cpp:155-237 | in every run an active id implies a challenge, and adding or updating then answers BUSY and changes nothing else |
| UserIdmLaws.ZeroChallengeNeverCancels | services/user_idm/src/useridm_controller.cpp:239-261 | in every run, cancelling with challenge zero fails without reaching the scheduler and changes nothing |
| UserIdmLaws.OnlyLiveSchedulesAreCancelled | services/user_idm/src/useridm_controller.cpp:35-82 | in every run a cancelled id is non-zero, was the last one inserted and was not committed |
| UserIdmLaws.FinishEffect | services/user_idm/src/useridm_coauth_handler.cpp:80-120 | exactly when a finish commits, and that one with a client ends whatever session there is |
| UserIdmLaws.FinishAnswersItsClient | services/user_idm/src/useridm_coauth_handler.cpp:39-120 | a finish answers its own client only: twice when an update was committed and its property change returned, once otherwise; without a commit it reports failure |
| UserIdmLaws.LateFinishDisarmsTheActiveSchedule | services/user_idm/src/useridm_coauth_handler.cpp:91-97 | so a late finish of one schedule makes the successful finish of another commit nothing |
| UserIdmLaws.InvOfRuns | services/user_idm/src/useridm_controller.cpp:35-287 | the session and authorisation invariant holds in every reachable state |
| UserIdmEffects.DeleteByChallengeEffect | services/user_idm/src/useridm_controller.cpp:239-261 | with no active schedule or another challenge than the open one the call fails and does nothing; otherwise that schedule is cancelled, the scheduler's result returned, and the id forgotten if and only if it is a success |
| UserIdmEffects.WrongChallengeTouchesNothing | services/user_idm/src/useridm_controller.cpp:239-261 | so the wrong challenge never reaches the scheduler |
| UserIdmEffects.DeleteByUserEffect | services/user_idm/src/useridm_controller.cpp:263-287 | answers the driver's result; the active schedule is cancelled and forgotten exactly if that is a success |
| UserIdmEffects.SessionsOpenAndClose | services/user_idm/src/useridm_controller.cpp:35-82 | opening cancels an active schedule and then holds exactly the new challenge; closing holds nothing; closing for a user needs the driver's success |
| UserIdmEffects.EnrollEffect | services/user_idm/src/useridm_controller.cpp:155-237 | the code and answer of every refusal, which changes nothing else; otherwise the driver's id is inserted, a handler made and the schedule started |
| UserIdmEffects.FinishEvents | services/user_idm/src/useridm_coauth_handler.cpp:39-120 | everything a finish says, in order and with codes, and that with a client it ends the session and nothing else |
| UserIdmEffects.PropEffect | services/user_idm/src/useridm_setprop_handler.cpp:39-54 | a property change tells its client its result and ends the session |
| UserIdmEffects.ResetEffect | services/user_idm/src/useridm_coauth_handler.cpp:138-142 | a reset takes the client of its own handler only |
| UserIdmEffects.ResetIsForEver | services/user_idm/src/useridm_coauth_handler.cpp:80-142 | in every run a handler that lost its client never commits again |
| UserIdmEffects.ArrivalOrder | services/user_idm/src/useridm_coauth_handler.cpp:80-120 | what arrives meanwhile is dealt with one by one, in order |
| UserIdm.UserIDMModule.CheckChallenge | services/user_idm/src/useridm_module.cpp:67-77 | found if and only if non-zero; otherwise the caller's variable keeps its value |
| UserIdm.UserIDMModule.CheckScheduleIdIsActive | services/user_idm/src/useridm_module.cpp:79-93 | active if and only if non-zero; otherwise the caller's variable keeps its value |
| UserIdm.UserIDMModule.InsertChallenge | services/user_idm/src/useridm_module.cpp:22-30 | only the challenge changes |
| UserIdm.UserIDMModule.InsertScheduleId | services/user_idm/src/useridm_module.cpp:32-40 | only the schedule id changes |
| UserIdm.UserIDMModule.DeleteSessionId | services/user_idm/src/useridm_module.cpp:50-56 | only the schedule id is cleared |
| UserIdm.UserIDMModule.CleanData | services/user_idm/src/useridm_module.cpp:58-65 | both are cleared |
| UserIdm.UserIDMCoAuthHandler.OnFinishModify | services/user_idm/src/useridm_coauth_handler.cpp:39-78 | result, new state and commit agree with the reference definition |
| UserIdm.UserIDMCoAuthHandler.OnFinish | services/user_idm/src/useridm_coauth_handler.cpp:80-120 | new state, commit and answers agree with the reference definition |
| UserIdm.UserIDMCoAuthHandler.ResetCallback | services/user_idm/src/useridm_coauth_handler.cpp:138-142 | the handler loses its client |
| UserIdm.UserIDMController.OnPropResult | services/user_idm/src/useridm_setprop_handler.cpp:39-54 | answers and ends the session without looking at it |
| UserIdm.UserIDMController.OpenEditSessionCtrl | services/user_idm/src/useridm_controller.cpp:35-49 | new state and cancellation agree with the reference definition |
| UserIdm.UserIDMController.CloseEditSessionCtrl | services/user_idm/src/useridm_controller.cpp:51-64 | new state and cancellation agree with the reference definition |
| UserIdm.UserIDMController.CloseEditSessionOfUser | services/user_idm/src/useridm_controller.cpp:66-82 | new state and cancellation agree with the reference definition |
| UserIdm.UserIDMController.CredentialCtrl | services/user_idm/src/useridm_controller.cpp:155-237 | result, new state and answers of adding or updating agree with the reference definition |
| UserIdm.UserIDMController.DelSchedleIdCtrl | services/user_idm/src/useridm_controller.cpp:239-261 | result and new state agree with the reference definition, described by DeleteByChallengeEffect |
| UserIdm.UserIDMController.DelSchedleIdOfUser | services/user_idm/src/useridm_controller.cpp:263-287 | result and new state agree with the reference definition |
| DriverManager.HdiConfigIsValid | common/executors/src/driver_manager.cpp:65-81 | the loop accepts if and only if the ids are pairwise distinct and no driver is null |
| DriverManager.DriverManager.Start | common/executors/src/driver_manager.cpp:35-63 | succeeds if and only if the configuration is valid and nothing was started; then every entry has a driver, otherwise nothing changes |
| DriverManager.BitsOfOr | common/utils/iam_mem.h:36 | every bit of the modelled or is the or of the bits |
| DriverManager.CombineIsSum | common/utils/iam_mem.h:34-37 | the shift-and-or of two 16-bit numbers is upper * 2^16 + lower |
| DriverManager.GlobalIdHalves | common/executors/src/executor.cpp:79-83 | the driver's number is the upper half of the identifier, the low half of the executor's number the lower |
| DriverManager.SharedGlobalId | common/executors/src/executor.cpp:79-83 | two registrations share an id if and only if the driver ids are equal and the executor ids agree modulo 2^16 |
| DriverManager.DriversNeverShareExecutors | common/utils/iam_mem.h:34-37 | executors of different drivers never share an id, whatever their own numbers, if and only if the configured driver ids are distinct |

## Left out

- AuthAttributes.AuthAttributes.Pack: asks that every recorded tag is listed with a type, which the setters guarantee; the source dereferences the table without looking.
- AuthAttributes.AuthAttributes.UnpackBuffer: asks that the call returns, for which `AttributeTermination.ReturnsUnlessRevisiting` gives the condition on the bytes; there is no result to state otherwise.
- AttributeAcceptance.ExactAcceptance: buffers longer than 2^32 - 100039 bytes are not covered, because there the 32-bit cursor itself can wrap inside a header; below that every wrapping sum is modelled.
- AttributeAcceptance.ExactAcceptance: asks for a table without entries of type zero; a setter called with an unlisted tag adds such an entry, and the reference parser covers it but not this law.
- AttributeAcceptance.WrappedListIsAccepted: a wrapping array has about 2^29 words; the model has memory for them.
- AttributeRoundTrip.EveryObjectRoundTrips: the same bound on the size of the encoding, and no `clear()`.
- AttributeLayout.PackLayout: the same bound on the size of the encoding.
- PropertyHop.Forward: asks for conditions on which `clear()` was not called, since `Pack` may otherwise write unset scalars, and for an encoding within the same bound.
- An unlisted tag, or a byte array whose length wraps, has no defined behaviour in `Unpack`; the model's outcome is then `Undefined` and says no more.
- ThreadGroups.ThreadGroups.PostTask: the pool's back-pressure at `maxTaskNum` tasks is recorded but not modelled; the thread pool itself is a queue with one worker, and a destroyed pool may lose its remaining tasks.
- ThreadGroups.ThreadGroups.RetainTaskThread: pools are values in a heap map addressed by numbers, not objects of their own; zero is the null pointer.
- CoAuthConservation.SubmissionsAreConserved: holds for runs of orderly handlers, since otherwise it is false; `CoAuthConservation.StepBalance` says exactly which handlers those are.
- CoAuth.CoAuthManager.Finish: the counter that stays unset for an absent id is a parameter with any value.
- Handlers and mutex-guarded methods are one atomic step each, except that executors may call back while they are being called, and schedules may finish while the edit session starts or cancels them.
- UserAuth.UserAuthDataMgr.GenerateContextId: draws come from a given sequence; when it is used up the result is `None`, so termination of the loop against a random source is not claimed.
- UserAuth.UserAuthService.AuthUser: one atomic step, so the branch in which another thread takes the drawn id is unreachable; creating a callback object is not separated from the call.
- UserAuthLaws.OneAnswerAndThenSilence: covers the answers of the posted handlers; the BUSY answer of `OnFinish` is covered by `UserAuthLaws.BusyIffThreadGone`.
- `AuthUser` never fills the session ids of its callback, so its count is zero; a callback with any other count is a separate operation of the runs.
- `UserAuthService::Auth`, which unlike `AuthUser` keeps its context on failure.
- UserAuth.CopyScheduleInfo: the schedule fields that the adapter copies unexamined are not in the copy: template, sub type, mode and key bytes.
- Executors.Executor.RespondCallbackOnDisconnect: models the changes of the set, not the lock; the source takes the executor's mutex again in `RemoveCommand` while the loop holds it.
- Executors.Executor.ProcessAuthCommand: a schedule that is cancelled by its messenger while the command is ending is not modelled. Enrolment and identification commands differ from authentication commands in the driver call only; custom commands have no messenger.
- UserIdm.UserIDMController.CredentialCtrl: one method for adding and updating, which differ in the kind of handler; the PIN and face kinds of adding are one kind.
- Exactly-once answers to the edit session's client: the modifying path answers twice by design of the calls.
- DriverManager.DriverManager.Start: a driver object is its configuration; subscribing to system events is left out.
- Driver and trusted-environment calls are parameters with any result; allocation failures, logging and counters used only in logs are left out.
- Inter-process proxies, parcels, death recipients, permission checks beyond their outcome, and the JavaScript interface.
- `Pack` and `UnpackUint64` of common/utils/iam_mem.h: the same byte images as the codec's, so they would only add an easy case.
