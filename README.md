# MongoDB replica-set membership controller, modelled in Dafny

This project models the membership controller of a MongoDB replica set in Brooklyn
(`MongoDBReplicaSetImpl`). The controller:

- decides which members are primary or secondary, and which member to evict on scale-down;
- accepts or refuses resize requests (0, or an odd size from 3 to 7);
- bootstraps the replica set on the first server added, exactly once;
- runs join and leave tasks one at a time on a single-thread executor. A task whose guard
  does not hold yet goes back to the end of the queue;
- keeps the `PRIMARY_ENTITY` attribute up to date from removals and from
  `IS_PRIMARY_FOR_REPLICA_SET` events;
- aggregates member endpoints into the primary endpoint and the sorted endpoint list;
- drops all pending work when stopped.

Files and modules:

- `wrappers.dfy` (`Wrappers`): `Option`, which stands for a Java reference that may be null.
- `roles.dfy` (`Roles`): `IS_PRIMARY`, `IS_SECONDARY`, `getPrimary`, `getSecondaries` and
  `NON_PRIMARY_REMOVAL_STRATEGY`, as functions over the ordered member list.
- `resize.dfy` (`Resize`): the guard of `resize`, with Java's truncating `%` written out.
- `endpoints.dfy` (`Endpoints`): the two enricher functions. The endpoint list is a method
  with a loop that inserts into an ascending duplicate-free sequence, which stands for the `TreeSet`.
- `controller.dfy` (`Controller`): the class `ReplicaSet`. Its fields are `nextMemberId`,
  `mustInitialise`, `PRIMARY_ENTITY`, `SERVICE_UP`, an ON_FIRE flag, the executor queue, a
  stopped flag and a log of the remote MongoDB client calls. Methods `ServerAdded`,
  `ServerRemoved`, `Step` (one executor run), `OnPrimarySignal` and `Stop` change it.

The servers' own attributes (`SERVICE_UP`, `REPLICA_SET_MEMBER_STATUS`) and the group's
membership belong to other entities. `Step` receives them as a `World` value.

Facts about the code that the model keeps, including two places where the source's own
Javadoc says something else:

- Member IDs are 0, 2, 3, …. Bootstrap takes 0 with `getAndIncrement` (line 211), and each
  join takes the value returned by `incrementAndGet` (line 240), so 1 is never issued.
  `Controller.ExpectedIds` describes this sequence, and the class invariant ties the log to it.
- A refused resize throws `IllegalStateException` (lines 190-195). The Javadoc at lines 178-180
  calls such requests "Ignored" and says the method returns "The eventual size", but the final
  `return getCurrentSize()` (line 197) cannot be reached.
- `getSecondaries` returns a list in group order (lines 156-158).
- The removal strategy returns the first non-primary member in iteration order (line 117),
  while the Javadoc at line 110 says it "Chooses any entity" that is not primary.
- `PRIMARY_ENTITY` is set by any true primary signal (line 347) and cleared only when the
  server it names is removed (lines 260-261).

## Model

| member | source | states |
|---|---|---|
| `Roles.IsSecondary` | software/nosql/src/main/java/brooklyn/entity/nosql/mongodb/MongoDBReplicaSetImpl.java:89-107 | a member is never both primary and secondary |
| `Roles.TryFind` | software/nosql/src/main/java/brooklyn/entity/nosql/mongodb/MongoDBReplicaSetImpl.java:151 | `Iterables.tryFind`: the result is the index of the first element satisfying the predicate, or none exists |
| `Roles.GetPrimary` | software/nosql/src/main/java/brooklyn/entity/nosql/mongodb/MongoDBReplicaSetImpl.java:149-152 | null exactly when no member is primary; otherwise the first primary member in group order |
| `Roles.GetSecondaries` | software/nosql/src/main/java/brooklyn/entity/nosql/mongodb/MongoDBReplicaSetImpl.java:154-159 | the result holds exactly the members that are secondary, and is no longer than the member list |
| `Roles.GetSecondariesAppend` | software/nosql/src/main/java/brooklyn/entity/nosql/mongodb/MongoDBReplicaSetImpl.java:154-159 | the filter keeps order: the secondaries of a concatenation are those of each part, in order |
| `Roles.NonPrimaryRemoval` | software/nosql/src/main/java/brooklyn/entity/nosql/mongodb/MongoDBReplicaSetImpl.java:109-119 | the argument error happens exactly for an empty collection; the result is always an element of the input; it is the first non-primary element, or element 0 when every element is primary |
| `Resize.JavaRem2` | software/nosql/src/main/java/brooklyn/entity/nosql/mongodb/MongoDBReplicaSetImpl.java:187-190 | Java's `desired % 2` is 0 exactly for even numbers, 1 for positive odd numbers and -1 for negative odd numbers |
| `Resize.ResizeRequest` | software/nosql/src/main/java/brooklyn/entity/nosql/mongodb/MongoDBReplicaSetImpl.java:182-198 | delegates, with the same size, if and only if desired is 0 or odd in [3,7]; refuses as "even" exactly the non-zero even sizes, as "below minimum" the odd sizes under 3, as "above maximum" the odd sizes over 7; the `getCurrentSize()` fallthrough is unreachable |
| `Endpoints.Insert` | software/nosql/src/main/java/brooklyn/entity/nosql/mongodb/MongoDBReplicaSetImpl.java:336 | `TreeSet.add` keeps the sequence ascending and duplicate-free, and adds exactly the new element |
| `Endpoints.StrictlySortedUnique` | software/nosql/src/main/java/brooklyn/entity/nosql/mongodb/MongoDBReplicaSetImpl.java:333-339 | an ascending duplicate-free list is fixed by its elements, so the endpoint list is the one sorted list of those endpoints |
| `Endpoints.ReplicaSetEndpoints` | software/nosql/src/main/java/brooklyn/entity/nosql/mongodb/MongoDBReplicaSetImpl.java:329-341 | `REPLICA_SET_ENDPOINTS` is ascending, has no duplicates, and holds exactly the non-blank input endpoints |
| `Endpoints.PrimaryEndpoint` | software/nosql/src/main/java/brooklyn/entity/nosql/mongodb/MongoDBReplicaSetImpl.java:314-327 | null for a null or empty input; otherwise the first input element, unfiltered |
| `Endpoints.PrimaryEndpointKeepsBlank` | software/nosql/src/main/java/brooklyn/entity/nosql/mongodb/MongoDBReplicaSetImpl.java:318-325 | for every input whose first endpoint is blank and a later one is not, the primary endpoint is that blank first element, and it is never in the endpoint list |
| `Controller.AfterStep` | software/nosql/src/main/java/brooklyn/entity/nosql/mongodb/MongoDBReplicaSetImpl.java:244-251 | after one run the rest of the queue moves up one place; the task goes back to the tail exactly when its guard failed |
| `Controller.QueueAdvances` | software/nosql/src/main/java/brooklyn/entity/nosql/mongodb/MongoDBReplicaSetImpl.java:249-250 | a retrying task blocks no other: after k runs the task that was k-th is at the head, whatever the earlier tasks did |
| `Controller.NoTrueSignalKeepsPrimary` | software/nosql/src/main/java/brooklyn/entity/nosql/mongodb/MongoDBReplicaSetImpl.java:344-349 | false and null primary events leave `PRIMARY_ENTITY` unchanged |
| `Controller.LastTrueSignalWins` | software/nosql/src/main/java/brooklyn/entity/nosql/mongodb/MongoDBReplicaSetImpl.java:344-349 | after a series of events, `PRIMARY_ENTITY` is the source of the last true event |
| `Controller.ExpectedIdsShape` | software/nosql/src/main/java/brooklyn/entity/nosql/mongodb/MongoDBReplicaSetImpl.java:211-240 | the IDs issued are strictly increasing, start at 0, never include 1, and none exceeds `nextMemberId` |
| `Controller.ExpectedIdsNext` | software/nosql/src/main/java/brooklyn/entity/nosql/mongodb/MongoDBReplicaSetImpl.java:240 | after bootstrap, a join issues `nextMemberId + 1`, which is above every ID issued so far |
| `Controller.ReplicaSet.constructor` | software/nosql/src/main/java/brooklyn/entity/nosql/mongodb/MongoDBReplicaSetImpl.java:60-64 | a new controller starts with `nextMemberId` 0, `mustInitialise` true, an empty queue and no calls made |
| `Controller.ReplicaSet.ServerAdded` | software/nosql/src/main/java/brooklyn/entity/nosql/mongodb/MongoDBReplicaSetImpl.java:200-223 | only the first call initialises, with ID 0. On success it sets `PRIMARY_ENTITY` to the server and `SERVICE_UP` to true; on failure it sets ON_FIRE. Every later call only enqueues a join task, and the invariant keeps initialisation to one call |
| `Controller.ReplicaSet.ServerRemoved` | software/nosql/src/main/java/brooklyn/entity/nosql/mongodb/MongoDBReplicaSetImpl.java:256-263 | `PRIMARY_ENTITY` becomes null if and only if it names the removed server; then a leave task is enqueued; nothing else changes |
| `Controller.ReplicaSet.RunJoin` | software/nosql/src/main/java/brooklyn/entity/nosql/mongodb/MongoDBReplicaSetImpl.java:232-254 | when the server's `SERVICE_UP` is true and a primary exists, `addMemberToReplicaSet` is called on the first primary with `nextMemberId + 1`, which is above every earlier ID; otherwise the task goes back on the queue and no ID is used |
| `Controller.ReplicaSet.RunLeave` | software/nosql/src/main/java/brooklyn/entity/nosql/mongodb/MongoDBReplicaSetImpl.java:265-288 | when a primary exists and the server's `SERVICE_UP` is false, `removeMemberFromReplicaSet` is called on the first primary; otherwise the task goes back on the queue with no call |
| `Controller.ReplicaSet.Step` | software/nosql/src/main/java/brooklyn/entity/nosql/mongodb/MongoDBReplicaSetImpl.java:225-288 | the head task decides from `SERVICE_UP` and `getPrimary()`, never from `PRIMARY_ENTITY`. A ready join calls `addMemberToReplicaSet` on the primary with one fresh ID above all earlier ones. A ready leave calls `removeMemberFromReplicaSet` on the primary. A task that is not ready goes to the tail with no call and no ID used. Nothing runs after stop |
| `Controller.ReplicaSet.OnPrimarySignal` | software/nosql/src/main/java/brooklyn/entity/nosql/mongodb/MongoDBReplicaSetImpl.java:344-349 | a true event overwrites `PRIMARY_ENTITY` with its source; any other event leaves it unchanged |
| `Controller.ReplicaSet.Stop` | software/nosql/src/main/java/brooklyn/entity/nosql/mongodb/MongoDBReplicaSetImpl.java:353-363 | the queue is emptied, the executor refuses further work, and `SERVICE_UP` becomes false |

## Left out

- Executor timing: the 3-second delay before a retry is modelled as appending the task to the tail of the FIFO queue. Threads and interleavings of the event handlers are modelled as a sequence of method calls.
- Remote MongoDB client calls (`initializeReplicaSet`, `addMemberToReplicaSet`, `removeMemberFromReplicaSet`) are entries in a call log. The result of the initialise call is a parameter of `ServerAdded`. The code ignores the results of the add and remove calls, and so does the model.
- Logging, the membership-tracking policy wiring, enricher registration and the summing enrichers are framework plumbing. The set of distinct primary endpoints (lines 319-324) only feeds the multiple-masters log warning, so it is not modelled.
- `super.resize`, `super.start` and `super.stop` belong to `DynamicClusterImpl`, which is not part of this model. `Delegated(size)` stands for the call to `super.resize`. The lifecycle states that `super.stop` sets are not modelled. Config lookups (`getMemberSpec`, `getCustomChildFlags`, `getReplicaSetName`) are left out; the set name is a constant of the class.
- The `instanceof MongoDBServer` checks and casts, and null entities given to `IS_PRIMARY` / `IS_SECONDARY`: every member is typed as a server.
- `Controller.ReplicaSet.Step`: does not model a null `SERVICE_UP` on a server, which unboxes to a `NullPointerException` at lines 239 and 274. `World.serviceUp` is a total boolean function.
- `Controller.ReplicaSet.Step`: does not model the 32-bit wrap-around of `nextMemberId`, which would need more than 2^31 joins.
- `Resize.ResizeRequest`: does not model a null `Integer` argument or the 32-bit range of `desired`; sizes are unbounded integers.
- `Endpoints.ReplicaSetEndpoints`: the input collection is never null. A null collection throws a `NullPointerException` at line 334, and that case is not modelled.
- `Endpoints.IsBlank`: `brooklyn.util.text.Strings` is not part of this model. Blank means null, or made only of characters up to U+0020 (those that `String.trim` strips).
- `Endpoints.Less`: orders strings by Unicode scalar value. Java's `compareTo` compares UTF-16 code units, which differ only for characters outside the Basic Multilingual Plane.
- `Controller.ReplicaSet.OnPrimarySignal`: accepts an event from any server. In the source the listener is registered with `subscribeToMembers` (line 344), so only group members send events; the model over-approximates the senders, which the properties proved do not depend on.
- `Controller.ReplicaSet.OnPrimarySignal`: the source tests `Boolean.TRUE == value` by reference. The model compares values, as for the canonical boxed `Boolean` that sensor events carry.
- `SERVICE_STATE` is modelled only as the ON_FIRE flag that this controller sets. Other lifecycle values come from the framework.
