# Flock queue registry — a Dafny model

Flock is a chat bot that lets members of a guild organise sign-up queues for an
activity. Its only stateful logic is in `src/flockutil.py`, and that file is what this
project models:

- a `QueueManager` owns the registry, an ordered list of queues. It creates queues and
  generates a random six-character name when none is given. It also deletes queues, looks
  them up by name and lists the queues a user is in;
- a `Queue` holds its creator, guild, name and an ordered member list. Adding a user who is
  already queued is refused.

Files:

- `wrappers.dfy` (module `Wrappers`): `Option`, `Result` and `Outcome`. The source raises
  exceptions; here each failure is returned as a value.
- `seqs.dfy` (module `Seqs`): first occurrence (`IndexOf`) and remove-first-occurrence
  (`RemoveFirst`, Python's `list.remove`) on sequences, with their lemmas.
- `flockutil.dfy` (module `FlockUtil`): the classes `Queue` and `QueueManager`, their
  specification functions (`NamesOf`, `QueuesWithMember`, `RemoveFirstNamed`) and the
  lemmas about them.
- `scenarios.dfy` (module `Scenarios`): callers that run short command sequences and assert
  the outcome from the contracts alone. They cover a generated name on an empty registry, a refused duplicate
  join, two queues under one explicit name, lookup and deletion of the older one, the
  queues of a user in creation order, and leaving a queue.

Both classes keep their lists as `seq` fields that the methods reassign.
`creator`, `name` and `guild` are never reassigned in the source, so they are `const`.
`Queue.Valid()` is the membership invariant: no user is queued twice.
`QueueManager.Valid()` says every queue in the registry keeps it.
Every mutating method preserves these invariants.

Where the code is looser than a reader might expect, the model follows the code:

- `CreateQueue` accepts an explicit name that is already taken (src/flockutil.py:16-24).
  Only generated names are checked against the registry. So registry-wide name uniqueness
  is not an invariant of the code. The model proves that uniqueness is preserved when names
  are generated (`CreateQueue`, `AppendFreshNameKeepsNamesUnique`), and that deletion leaves
  no queue with the deleted name when names were unique (`DeletedNameIsGone`).
- `RemoveMember` of a user who is not queued fails, because `list.remove` raises
  `ValueError`. It is not a no-op.
- `DeleteQueue` always returns `None`. The variable `queue_removed` is never assigned, so
  the model's out-parameter `removed` is always `None`.

`get_members` and `get_name` are plain accessors, so the
model reads the fields `members` and `name` directly.

## Model

| member | source | states |
|---|---|---|
| `Seqs.IndexOf` | src/flockutil.py:66-69 | the index of the first element equal to `x`, or the length when there is none; every earlier element differs from `x` |
| `Seqs.RemoveFirst` | src/flockutil.py:122 | removing a present value shortens the list by one; removing an absent value leaves it unchanged |
| `Seqs.RemoveFirstAt` | src/flockutil.py:122 | `list.remove` deletes exactly the element at the first index of the value and keeps all others in order |
| `Seqs.RemoveFirstMultiset` | src/flockutil.py:122 | removal takes exactly one copy of the value out of the multiset of elements |
| `Seqs.RemoveFirstNoDuplicates` | src/flockutil.py:121-122 | on a duplicate-free list, removal keeps it duplicate-free and leaves no copy of the value |
| `Seqs.AppendAbsentNoDuplicates` | src/flockutil.py:115-117 | appending an absent value keeps a list duplicate-free |
| `FlockUtil.Queue.constructor` | src/flockutil.py:95-105 | creator, name and guild are as given; the member list is empty and the queue's own |
| `FlockUtil.Queue.GenerateQueueName` | src/flockutil.py:107-110 | every generated name has 6 characters, each a lowercase ASCII letter or a digit |
| `FlockUtil.Queue.AddMember` | src/flockutil.py:115-119 | an absent id is appended at the end; a present id fails with `DuplicateMember` and leaves the list unchanged; no-duplicates is preserved |
| `FlockUtil.Queue.RemoveMember` | src/flockutil.py:121-122 | a present id has its first occurrence removed; an absent id fails with `MemberNotFound` and leaves the list unchanged; on a valid queue the id is gone afterwards |
| `FlockUtil.Queue.ClearMembers` | src/flockutil.py:124-125 | the member list is empty afterwards |
| `FlockUtil.QueueManager.constructor` | src/flockutil.py:9-10 | the registry starts empty |
| `FlockUtil.QueueManager.CreateQueue` | src/flockutil.py:12-32 | on success, exactly one fresh queue is appended and earlier queues stay in order; it has creator `author.id`, guild `author.guild` and members `[author.id]`; its name is the given one when non-empty; otherwise it is a generated name not already in the registry; failure happens only for generated names, only after `MAX_NAME_ATTEMPTS` generated names that are all already in the registry (so never on an empty registry), and leaves the registry unchanged |
| `FlockUtil.QueueManager.GetQueues` | src/flockutil.py:34-35 | returns the registry's queues in creation order |
| `FlockUtil.QueueManager.DeleteQueue` | src/flockutil.py:37-47 | removes the first queue with the given non-empty name and keeps the rest in order; otherwise the registry is unchanged; the return value is always `None` |
| `FlockUtil.QueueManager.FindQueueByName` | src/flockutil.py:61-70 | returns the first queue in registry order whose name equals the argument; returns `None` exactly when the name is empty or no queue has it |
| `FlockUtil.QueueManager.CheckQueueNameExists` | src/flockutil.py:72-78 | true exactly when the name is non-empty and some queue has that name |
| `FlockUtil.QueueManager.CheckQueueNameExistsAsWritten` | src/flockutil.py:72-78 | as written, raises `AttributeError` exactly when the registry and the name are both non-empty; it never reports a taken name |
| `FlockUtil.QueueManager.GetUserQueues` | src/flockutil.py:80-86 | returns, in registry order, exactly the queues whose member list holds `user.id` |
| `FlockUtil.QueuesWithMemberExactly` | src/flockutil.py:80-86 | a queue is in the user's queue list if and only if it is in the registry and lists the user |
| `FlockUtil.QueuesWithMemberSnoc` | src/flockutil.py:83-85 | scanning one more queue adds it at the end exactly when it lists the user, so registry order is kept |
| `FlockUtil.RemoveFirstNamedAt` | src/flockutil.py:42-45 | deleting by name removes exactly the first queue with that name and keeps the others in order |
| `FlockUtil.FirstNamedIsFirstOccurrence` | src/flockutil.py:42-45 | the queue `find_queue_by_name` returns is also the first occurrence of that object, so `list.remove` deletes the first queue with the name |
| `FlockUtil.RemoveFirstNamedKeepsValid` | src/flockutil.py:37-47 | deletion keeps only queues that were in the registry, so every remaining queue still has no duplicate members |
| `FlockUtil.RemoveFirstNamedAbsent` | src/flockutil.py:42-47 | deleting a name that no queue has leaves the registry unchanged |
| `FlockUtil.NamesAfterRemoveFirstNamed` | src/flockutil.py:37-45 | the names after a deletion are the old names with that name removed once |
| `FlockUtil.DeletedNameIsGone` | src/flockutil.py:37-45 | when the names are unique, after a deletion no queue has the deleted name and the names stay unique |
| `FlockUtil.AppendFreshNameKeepsNamesUnique` | src/flockutil.py:17-30 | appending a queue whose name is not taken keeps the registry's names unique |
| `FlockUtil.SharedDefaultAddCreator` | src/flockutil.py:24-27 | as written, with a member list shared by all queues: the creator is appended to the shared list, or `DuplicateMember` when already there |
| `FlockUtil.SharedDefaultTwoCreations` | src/flockutil.py:24-27 | as written, after queues by two distinct creators `c1` and `c2` both queues list `[c1, c2]`; the same creator twice is refused with `DuplicateMember` |

## Left out

- Timestamps (`_createdtime`, `_lastmodified`, `_starttime`, `_update_lastmodified`, `get_formatted_starttime`, `get_time_until_start`): they are wall-clock values and `strftime` formatting.
- `find_queue_by_id`: it matches on a CPython object address, which has no counterpart here.
- `format_current_queue`: an empty stub.
- The distribution of random names: `GenerateQueueName` makes an arbitrary choice per character and states only the shape of the result.
- FlockUtil.QueueManager.CreateQueue: gives up with `NameGenerationExhausted` after `MAX_NAME_ATTEMPTS` (100) generated names that were all taken. The source retries without bound, and a verified loop here must terminate.
- The `members` parameter of `Queue.__init__`: no caller passes it, so `FlockUtil.Queue.constructor` always starts a queue with an empty list of its own.
- The error texts: the failures are typed values without the `ValueError` messages.
- Aliasing through returned lists: `get_queues` and `get_members` hand out the live Python lists, so a caller could change the registry or a member list through them. The model hands out values.
- `src/bot.py`: Discord client wiring, command-file loading, token loading and console output are I/O outside the registry.
- Concurrency: the code has no locking and the model is sequential.

## Findings

| source | as written | input that shows it | evidently intended | confidence | as-written member | corrected member |
|---|---|---|---|---|---|---|
| src/flockutil.py:76 | compares `q.name`, an attribute `Queue` never defines (the name is in `_name`) | any call with a non-empty registry and a non-empty name, e.g. `create_queue(author)` once one queue exists | compare `q.get_name() == name` | high; not executed | `FlockUtil.QueueManager.CheckQueueNameExistsAsWritten` | `FlockUtil.QueueManager.CheckQueueNameExists` |
| src/flockutil.py:95 | `members=[]` is one list shared by every `Queue` built without `members` | `create_queue(U1, "a")` then `create_queue(U2, "b")`: the first queue lists `U1, U2`; `create_queue(U1, "a")` then `create_queue(U1, "b")`: the second raises `ValueError` (explicit names, so that the name check of the other finding is not reached) | each queue starts with its own empty list | high; not executed | `FlockUtil.SharedDefaultTwoCreations` | `FlockUtil.Queue.constructor` |
