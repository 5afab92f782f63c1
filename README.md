# Chat room participant registry

A model of the participant routes of a small chat-room backend (`src/app.js`).
A client joins the room with `POST /participants {name}`; the server checks the
body against its schema (`name` must be a non-empty string), refuses a name some
participant already has, and otherwise stores the participant with the current
timestamp as its `lastStatus` and stores a `status` message announcing the join
to everyone (`to: "Todos"`, `text: "entra na sala..."`). `GET /participants`
returns the whole participant collection.

The model has three modules:

- `Validation` (`validation.dfy`): the request-body schema as `ValidateName`,
  over a `Field` that is absent, a string, or any other JSON value.
- `Collections` (`collections.dfy`): the participant and message records, the
  `findOne({ name })` lookup as `FindOne`, the name-uniqueness predicate and
  facts about counting names.
- `Registry` (`registry.dfy`): the three-way decision `Decide`, the effect of one
  join on both collections as the pure `JoinStep`, replays of join sequences
  from empty collections, and the class `ChatServer`. It holds the two
  collections as `seq` fields. `Join` updates them in place. `List` reads them.

The clock (`Date.now()`) is the `now` parameter of `Join`. It is read once per
request, and the same value becomes the participant's `lastStatus` and the
announcement's `time`. The hour-minute-second formatting of that timestamp is
the class's `format` function, fixed when the server is built. Its output is
left uninterpreted, because it depends on the time zone and on the date library.

## Model

| member | source | states |
|---|---|---|
| `Validation.ValidateName` | src/app.js:14-16 | the schema reports no violation exactly when `name` is present, a string, and not empty; otherwise it reports one violation (it stops at the first) |
| `Collections.FindOne` | src/app.js:35-36 | the lookup finds a participant carrying the requested name when one exists, and finds none exactly when no participant has it |
| `Collections.UniqueOccursAtMostOnce` | src/app.js:35-44 | when names are unique, every name is carried by at most one participant |
| `Collections.AppendUnique` | src/app.js:35-44 | appending a participant keeps names unique if and only if they were unique before and the new name was absent |
| `Registry.Decide` | src/app.js:30-38 | the outcome is Invalid (carrying the schema's non-empty detail list) exactly when the name is not a non-empty string, Conflict exactly when it is valid and some participant has it, Created exactly when it is valid and no participant has it |
| `Registry.JoinInvalidUnchanged` | src/app.js:30-33 | a body failing the schema yields Invalid with its violations and leaves both collections unchanged |
| `Registry.JoinConflictUnchanged` | src/app.js:35-38 | a valid name already present yields Conflict and leaves both collections unchanged |
| `Registry.JoinCreatedAppends` | src/app.js:40-54 | a valid new name yields Created, appends exactly one participant `{name, lastStatus: now}` and exactly one message `{from: name, to: "Todos", text: "entra na sala...", type: "status", time: format(now)}`, and keeps every earlier record in place |
| `Registry.JoinPreservesUnique` | src/app.js:35-44 | no join makes two participants share a name |
| `Registry.JoinPreservesNonEmpty` | src/app.js:30-44 | no join inserts a participant with an empty name, because only a name that passed the schema is inserted |
| `Registry.JoinedNameOccursOnce` | src/app.js:40-44 | after a successful join, exactly one participant has the joined name |
| `Registry.RejoinConflicts` | src/app.js:35-54 | a second join with a name that has just joined, at any time, is a Conflict and adds neither a participant nor a message |
| `Registry.ReplayUnique` | src/app.js:27-57 | starting from empty collections, every sequence of joins leaves participant names unique |
| `Registry.ReplayNonEmpty` | src/app.js:27-57 | starting from empty collections, every sequence of joins leaves every participant name non-empty |
| `Registry.ReplayAnnounced` | src/app.js:40-54 | starting from empty collections, message i is the join announcement of participant i, and its time renders that participant's own `lastStatus` |
| `Registry.ChatServer.Join` | src/app.js:27-57 | the outcome is `Decide` on the old participants; rejection leaves both fields unchanged; creation appends the participant and its announcement from the single timestamp `now`; the invariant `Valid()` (names unique and non-empty) is preserved; the result agrees with `JoinStep` |
| `Registry.ChatServer.List` | src/app.js:59-62 | returns exactly the current participant sequence; having no `modifies` clause, it changes neither collection |

## Left out

- HTTP transport and configuration: the web framework, CORS, JSON body parsing, environment loading and the listening port. The HTTP status codes (422, 409, 201) are not modelled; the outcome datatype `JoinOutcome` stands for them.
- The database client: connecting, getting the database handle, and the log line when connecting fails. The two collections are in-memory sequences. A lookup is `FindOne` and an `insertOne` is an append.
- The `_id` member the database adds to every inserted document. `List` returns the participant records without it.
- The error branch of the list route (status 500). It can only be reached by a store failure.
- Concurrency: the handlers suspend at every database call, so two joins with the same name can interleave between the lookup and the insert. The model treats each `Join` as atomic.
- Partial failure: the two inserts are not one transaction, so a failure after the participant insert would leave a participant with no announcement. Store failures are not modelled.
- Names holding unpaired UTF-16 surrogates. Such strings can come out of JSON parsing, and the database compares names after re-encoding them as UTF-8. A Dafny `string` is a sequence of Unicode scalar values, so it cannot hold them. For every well-formed string, equality and emptiness behave as in the source.
- The text of the schema's violation messages and the details list's exact shape. They come from the validation library, so `Invalid` carries only the kind of each violation.
- The formatting of a timestamp as `HH:mm:ss`. It depends on the local time zone and the date library, so `format` is an arbitrary function supplied when the server is built.
- `Registry.ChatServer.Join` and `Registry.ChatServer.List` state the database's contents in insertion order. The source makes no promise about the order `find()` returns, and the model's order is one the store may choose.
