# Go course labs: task list, user validation and chat broker, in Dafny

This project models the sequential logic of four Go components of a course
repository and proves properties about them:

- **Task manager** (lab 1). It keeps a map from task id to task and an id
  counter that only grows. It supports add, update, delete, get and list with
  an optional `Done` filter.
- **User validators** (lab 1). They check a name's byte length, an age range
  and the e-mail shape by index search. `Validate` reports the first failure and
  `NewUser` is the validating constructor.
- **User record and user map** (lab 2). `Validate` checks the name length, then
  an e-mail regular expression, then a non-empty id. `UserManager` is a keyed
  map with add (overwrite), remove and get. In a manager built with a context,
  the three calls never change the map. `AddUser` still validates first and
  reports a validation error; otherwise each call reports the context's error.
- **Chat broker** (lab 2). It has a registry from user id to receiving channel,
  a bounded input buffer, and a dispatch loop. Each message is sent to every
  registered channel (broadcast) or to the recipient's channel (unicast). The
  loop stops when the context is cancelled.

Every operation except listing is a pure function from the old state to the
new state and a result. `ListTasks` (with its loop `CollectSelected`) is a
method. It picks the next key nondeterministically, so its contract holds for
every order Go's map iteration could produce. The Go error values become error
datatypes (`Outcomes.Result`, `Outcomes.Option`). Strings are byte sequences (`Bytes.Bytes`), because Go's
`len`, `strings.Index`, `strings.LastIndex` and the ASCII character classes of
the regular expression all work on bytes.

The files are:

- `bytes.dfy`: bytes, plus `IndexOf` and `LastIndexOf`.
- `outcomes.dfy`: `Option`, `Result`, and the context errors.
- `taskmanager.dfy`: the task manager.
- `lab01_user.dfy`: the lab 1 validators.
- `lab02_user.dfy`: the lab 2 user record and `UserManager`.
- `chatcore.dfy`: the chat broker.

Points where the model departs from a literal reading of the code, or where
the code's behaviour is easy to misread:

- `labs/lab01/backend/taskmanager/taskmanager.go` does not compile as written.
  - The map is declared `map[int]Task` but used as `map[int]*Task`.
  - `ErrInvalidID` is used but never declared.

  The model follows the evident intent: `UpdateTask` changes the stored task in
  place, and `InvalidID` is an error variant. With the declared value map, the
  update at lines 78-80 would be lost on a copy.
- The broker has no error of its own. `SendMessage` returns `ctx.Err()` in
  both of its cancellation cases (chatcore.go:75, 77), so the model returns the
  context's error (`Context.Canceled` or `Context.DeadlineExceeded`).
- No code sets a message's `Timestamp`, so `timestamp` is carried unchanged.
- The two cancellation cases of `SendMessage` (chatcore.go:74-77) show that
  sends are meant to fail once the broker is cancelled. The shared `select`
  does not guarantee that (see Findings).

In the chat broker, a Go `select` with several ready cases picks one of them at
random. The model turns that pick into a `Choice` parameter of `Step` and
`SendMessage`, so each property holds for every pick the runtime could make.
The three lifecycle states of the broker are encoded by two fields:

- running: `cancelled == None`;
- cancelled but the loop has not yet noticed: `cancelled.Some? && !done`;
- closed: `done`.

## Model

| member | source | states |
|---|---|---|
| Bytes.IndexOf | labs/lab01/backend/user/user.go:66 | The result is -1 exactly when the byte is absent. Otherwise the result is a position holding the byte, with no occurrence before it (Go `strings.Index`). |
| Bytes.LastIndexOf | labs/lab01/backend/user/user.go:71 | The result is -1 exactly when the byte is absent. Otherwise the result is a position holding the byte, with no occurrence after it (Go `strings.LastIndex`). |
| TaskManager.NewTaskManager | labs/lab01/backend/taskmanager/taskmanager.go:30-39 | A new manager has no tasks, its counter is 1, and it satisfies the manager invariant: each key lies in [1, nextID) and is its task's own id. |
| TaskManager.AddTask | labs/lab01/backend/taskmanager/taskmanager.go:42-60 | An empty title fails with EmptyTitle and changes nothing. Otherwise the new task has id = old nextID, the given title, description and time, and is not done. The key set grows by exactly that id, which was not used before, and the counter goes up by one. All other tasks are unchanged and the invariant is kept. |
| TaskManager.UpdateTask | labs/lab01/backend/taskmanager/taskmanager.go:63-83 | The checks run in order: id < 1 gives InvalidID, then an empty title gives EmptyTitle, then a missing key gives TaskNotFound. Each of these holds exactly in its case, and any error leaves the state unchanged. On success only that task's title, description and done change. Its id and CreatedAt stay, the other tasks and the counter are untouched, and the invariant is kept. |
| TaskManager.DeleteTask | labs/lab01/backend/taskmanager/taskmanager.go:86-99 | id < 1 gives InvalidID and a missing key gives TaskNotFound, each leaving the state unchanged. On success exactly the key `id` is removed, the other tasks are unchanged and the counter is not lowered. |
| TaskManager.GetTask | labs/lab01/backend/taskmanager/taskmanager.go:102-114 | The result is the stored task exactly when id >= 1 and the key is present. Otherwise it is InvalidID or TaskNotFound, in that order. A stored task carries its own key as its id. |
| TaskManager.CollectSelected | labs/lab01/backend/taskmanager/taskmanager.go:119-125 | The map iteration visits every key once, in any order. It keeps one task per key that passes the filter, each task being the one stored under its key, and no key twice. |
| TaskManager.ListTasks | labs/lab01/backend/taskmanager/taskmanager.go:117-128 | Every returned task is stored and passes the filter (nil keeps all, &b keeps Done == b). Every stored task that passes is returned. The length equals the number of selected keys, and in a valid manager no id appears twice, so each task appears exactly once. |
| TaskManager.IssuedIdsNeverReused | labs/lab01/backend/taskmanager/taskmanager.go:49-57 | Take any history of add, update and delete calls on a valid manager. The ids issued by successful adds strictly increase and lie in [old nextID, new nextID). None equals a key present at the start, deletion never lowers the counter, and the invariant holds at the end. |
| Lab01User.IsValidName | labs/lab01/backend/user/user.go:84-86 | A name is accepted iff its byte length (Go's `len`, not its rune count) is between 1 and 30. |
| Lab01User.IsValidAge | labs/lab01/backend/user/user.go:89-91 | An age is accepted iff 0 <= age <= 150. |
| Lab01User.IsValidEmail | labs/lab01/backend/user/user.go:61-81 | The index-based check accepts exactly the addresses where a '@' at position a > 0 has no '@' before it, and a '.' at position d has no '.' after it, with a + 1 < d < len - 1. |
| Lab01User.IsValidEmailRejects | labs/lab01/backend/user/user.go:62-69 | The empty string, a string without '@', and a string whose first byte is '@' are all rejected. |
| Lab01User.SeveralAtsAccepted | labs/lab01/backend/user/user.go:66-71 | Only the first '@' is examined, so "a@b@c.d" is accepted. |
| Lab01User.Validate | labs/lab01/backend/user/user.go:39-53 | The user is accepted iff its name has 1 to 30 bytes, 0 <= age <= 150, and the e-mail has the shape above. Otherwise the error is InvalidName, else InvalidAge, else InvalidEmail: each holds exactly when it is the first failing check. |
| Lab01User.NewUser | labs/lab01/backend/user/user.go:24-36 | The result is a user whose fields equal the arguments iff Validate succeeds. Otherwise the result is Validate's error. |
| Lab02User.MatchEmail | labs/lab02/backend/user/user.go:21-28 | The backtracking-free matcher (first '@', last '.', then the three character classes) accepts exactly the language of `^[a-zA-Z0-9._%+\-]+@[a-zA-Z0-9.\-]+\.[a-zA-Z]{2,}$`. |
| Lab02User.MatchEmailOneAt | labs/lab02/backend/user/user.go:21 | A matching address contains exactly one '@'. |
| Lab02User.SecondAtRejected | labs/lab02/backend/user/user.go:21 | Unlike lab 1, "a@b@c.de" does not match. |
| Lab02User.Validate | labs/lab02/backend/user/user.go:20-33 | "Invalid name" holds iff the name is empty or longer than 30 bytes. "Invalid email" holds iff the name is valid and the e-mail is not in the pattern's language. "Invalid Id" holds iff both of those pass and the id is empty. The user is accepted iff all three checks pass. |
| Lab02User.NewUserManager | labs/lab02/backend/user/user.go:46-50 | A new manager has no context and an empty map, and satisfies the invariant that every user is valid and stored under its own id. |
| Lab02User.NewUserManagerWithContext | labs/lab02/backend/user/user.go:53-58 | A manager made with a context has an empty map, keeps the context, and satisfies the invariant. |
| Lab02User.AddUser | labs/lab02/backend/user/user.go:61-77 | Validation runs first, even with a context, and its error leaves the map unchanged. With a context a valid user gets only the context's error. Without one, the user overwrites the entry of its id and every other entry stays. Success happens iff the user is valid and there is no context, and the invariant is kept. |
| Lab02User.RemoveUser | labs/lab02/backend/user/user.go:80-100 | With a context the result is only the context's error, with the map unchanged. Without a context, an absent id gives "User not found" and changes nothing. Success happens iff there is no context and the id is present. |
| Lab02User.RemoveUserDeletesExactlyId | labs/lab02/backend/user/user.go:87-97 | The source deletes the stored user's ID rather than the id it was given. On every map the manager builds the two agree, so exactly the key `id` is removed and the invariant is kept. |
| Lab02User.GetUser | labs/lab02/backend/user/user.go:103-119 | With a context the result is the empty user and the context's error. Without one, the result is the stored user for a present id, or the empty user and "not found". |
| Lab02User.AddGetRemoveRoundTrip | labs/lab02/backend/user/user.go:61-119 | Without a context, a valid user that was added is read back unchanged. Removing it then succeeds, and afterwards it reads as "not found". |
| ChatCore.NewBroker | labs/lab02/backend/chatcore/chatcore.go:33-40 | A new broker has an empty buffer and registry, no closed channels and `done` open, and it keeps the given context. It satisfies the broker invariant. |
| ChatCore.Cancel | labs/lab02/backend/chatcore/chatcore.go:46 | After cancellation the context is done. The first cancellation fixes the error and later ones change nothing. The registry, buffer and `done` are untouched. |
| ChatCore.RegisterUser | labs/lab02/backend/chatcore/chatcore.go:86-99 | A registered id keeps its channel and the broker is unchanged. A new id adds exactly that mapping and leaves the other entries. Registering a fresh channel keeps the invariant. |
| ChatCore.RegisterKeepsFirst | labs/lab02/backend/chatcore/chatcore.go:91-93 | Registering an id twice with two channels keeps the first channel. |
| ChatCore.UnregisterUser | labs/lab02/backend/chatcore/chatcore.go:102-115 | An unknown id is a no-op. A known id has its channel closed and only that key removed, with the buffer, context and `done` unchanged. Closing an already-closed channel panics, which never happens in a valid broker. |
| ChatCore.UnregisterTwiceIsNoOp | labs/lab02/backend/chatcore/chatcore.go:107-109 | Unregistering the same id a second time changes nothing. |
| ChatCore.Route | labs/lab02/backend/chatcore/chatcore.go:51-64 | Every send carries the message to the channel registered under its key, and there is at most one send per key. A broadcast sends to every registered key. A unicast sends only to the recipient: to its channel when it is registered, and nothing (no error) otherwise. |
| ChatCore.BroadcastCount | labs/lab02/backend/chatcore/chatcore.go:51-56 | A broadcast makes exactly as many sends as there are registered users. |
| ChatCore.UnicastCount | labs/lab02/backend/chatcore/chatcore.go:57-64 | A unicast makes one send when the recipient is registered and none otherwise. |
| ChatCore.RouteOncePerChannel | labs/lab02/backend/chatcore/chatcore.go:53-55 | In a valid broker no channel receives two copies of one message. |
| ChatCore.Step | labs/lab02/backend/chatcore/chatcore.go:43-69 | One loop iteration. Stopped happens exactly when `done` is already closed, and then nothing changes. ShutDown happens exactly when the context is done and the runtime picks that case, or no message is waiting; it closes `done` and nothing else. Idle happens exactly when nothing is ready. Otherwise the head of the buffer is dequeued: it is dispatched, performing Route's sends, none of them to a closed channel; or it crashes, exactly when one of those sends targets a closed channel. A valid broker stays valid and never panics. |
| ChatCore.DispatchIsFifo | labs/lab02/backend/chatcore/chatcore.go:43-50 | Over any sequence of scheduler picks, the dispatched messages followed by the still-buffered ones equal the starting buffer. Processing is therefore FIFO, with no loss or duplication, and the registry is untouched. |
| ChatCore.ShutdownIsTerminal | labs/lab02/backend/chatcore/chatcore.go:46-48 | After shutdown no further step dequeues or delivers anything, and the state no longer changes. |
| ChatCore.ClosedChannelReceivesNothing | labs/lab02/backend/chatcore/chatcore.go:113-114 | After UnregisterUser closes a channel, the next dispatch sends nothing to it. |
| ChatCore.SendMessage | labs/lab02/backend/chatcore/chatcore.go:72-83 | The call returns the context's error, with the buffer unchanged, exactly when the context is done and that case is picked or the buffer is full. Otherwise it returns nil exactly when two slots are free, and then the message has been appended twice. It blocks with one copy appended exactly when one slot is free, and blocks with nothing appended when the buffer is full. The buffer never exceeds 100. |
| ChatCore.SendMessageDeliversTwice | labs/lab02/backend/chatcore/chatcore.go:78-79 | On an idle broker, a unicast to a registered user is dispatched, and delivered, twice. |
| ChatCore.SendMessageAfterShutdownMaySucceed | labs/lab02/backend/chatcore/chatcore.go:73-78 | A closed broker with room in its buffer can accept a message that will never be dispatched. |
| ChatCore.SendOnce | labs/lab02/backend/chatcore/chatcore.go:72-83 | The corrected send fails exactly when the context is done, leaving the state unchanged. It succeeds exactly when the context is not done and there is room, and then appends exactly one copy. |
| ChatCore.SendOnceDeliversOnce | labs/lab02/backend/chatcore/chatcore.go:57-64 | With the corrected send, a unicast to a registered user is delivered exactly once, and then the loop is idle. |
| ChatCore.SendOnceAfterCancelFails | labs/lab02/backend/chatcore/chatcore.go:74-77 | With the corrected send, every send after cancellation fails and the buffer is unchanged. |

## Left out

- `labs/lab01/backend/calculator/calculator.go` is not part of this model. It is float64 arithmetic plus wrappers over `strconv`.
- Concurrency is abstracted away. Each call is one atomic transition. Goroutine scheduling and the RWMutex discipline are not modelled. The races are not modelled either:
  - the lookup-then-send race in Run (lines 58-62);
  - the check-then-lock gaps in RegisterUser and UnregisterUser (lines 87-95, 103-111).
- ChatCore.Step: sends to receiving channels are assumed to complete. A full receiving channel blocks the Go loop. The model has no capacities for channels the caller creates.
- ChatCore.Step: a panic during a broadcast is reported as `Crashed` without the sends that happened before it. A Go panic ends the program anyway.
- ChatCore.SendMessage: `Blocked` records the state at the point where the call waits. The waiting itself, and what happens once the loop frees room, are left to later calls.
- ChatCore.SendMessage: the `<-b.done` case is folded into the cancellation case. Both return `ctx.Err()`, and `done` is only closed after cancellation (the `Valid` invariant).
- Lab02User.AddUser, Lab02User.RemoveUser, Lab02User.GetUser: a context is represented by the error it reports once done. The wait for `ctx.Done()` in those calls is not modelled.
- Lab02User.Validate: `regexp.MatchString` on a constant, well-formed pattern never reports an error, so only its match result is modelled.
- TaskManager.AddTask: `time.Now()` becomes the caller-supplied `now` parameter.
- TaskManager.AddTask: Go's `int` counter would wrap after 2^63 - 1 tasks. The model's counter is unbounded.
- TaskManager.GetTask: the Go call returns a pointer that aliases the stored task. The model returns the value.
- TaskManager.AddTask: the Go call stores `&newTask` and returns the same pointer (lines 56, 59), so the caller shares the stored task. The model returns a copy of the value.
- TaskManager.ListTasks: the Go call returns pointers to the stored tasks (line 123), so callers can change them. The model returns values.
- ChatCore.Valid: the model gives callers no way to close the channels they registered. Channels are closed only by `UnregisterUser`, so the invariant that registered channels are open covers only brokers whose callers never close those channels themselves.
- `User.String` (lab 1, line 57) is formatting only and is left out.
- Strings are byte sequences. Go's UTF-8 decoding in `regexp` never matters here: every character class is ASCII and no byte of a multi-byte sequence belongs to one.

## Findings

| source | as written | input that shows it | evidently intended | confidence | as-written member | corrected member |
|---|---|---|---|---|---|---|
| labs/lab02/backend/chatcore/chatcore.go:78-79 | The body of the `case b.input <- msg:` sends `msg` on `b.input` a second time, so every accepted message is buffered and dispatched twice. | An idle broker with "bob" registered; SendMessage of a unicast to "bob"; two loop iterations each deliver it to bob. | One copy per SendMessage. | high (not executed) | ChatCore.SendMessageDeliversTwice | ChatCore.SendOnceDeliversOnce |
| labs/lab02/backend/chatcore/chatcore.go:73-78 | The cancellation cases and the send case share one `select`. When the buffer has room and the context is cancelled, Go may pick the send, so the call returns nil even after Run has returned. | Context cancelled, `done` closed, empty buffer, and the runtime picks the send case. The call returns nil and the message is never dispatched. | Every send after cancellation fails with the context's error. | medium (not executed) | ChatCore.SendMessageAfterShutdownMaySucceed | ChatCore.SendOnceAfterCancelFails |
