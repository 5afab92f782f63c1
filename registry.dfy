/** The participant registry: the join route's decision procedure and its
    effect on the two collections, and the list route. */
module Registry {
  import opened Validation
  import opened Collections

  /** The broadcast recipient of status messages. */
  const Broadcast := "Todos"
  /** The text of the message announcing a join. */
  const JoinText := "entra na sala..."
  /** The `type` of system-generated messages. */
  const StatusKind := "status"

  /** The three outcomes of a join. `Invalid` carries the schema's details. */
  datatype JoinOutcome = Invalid(details: seq<Violation>) | Conflict | Created

  /** The status message announcing that `name` joined, stamped with `time`. */
  function Announcement(name: string, time: string): ChatMessage
  {
    ChatMessage(name, Broadcast, JoinText, StatusKind, time)
  }

  /** Which outcome a join request has against the current participants:
      invalid when the name is not a non-empty string, a conflict when a
      participant already has the name, created otherwise. */
  function Decide(ps: seq<Participant>, body: Field): (o: JoinOutcome)
    ensures o.Invalid? <==> !(body.Str? && |body.s| > 0)
    ensures o.Invalid? ==> o.details == ValidateName(body) && o.details != []
    ensures o.Conflict? <==>
            body.Str? && |body.s| > 0 && exists i :: 0 <= i < |ps| && ps[i].name == body.s
    ensures o.Created? <==>
            body.Str? && |body.s| > 0 && forall i :: 0 <= i < |ps| ==> ps[i].name != body.s
  {
    var details := ValidateName(body);
    if details != [] then Invalid(details)
    else if FindOne(ps, body.s).Some? then Conflict
    else Created
  }

  /** The contents of the two collections. */
  datatype Store = Store(participants: seq<Participant>, messages: seq<ChatMessage>)

  /** A join handled atomically: the outcome and the collections afterwards.
      `now` is the clock reading taken once for the request and `format` renders
      a timestamp as the hour-minute-second string stored in messages. */
  function JoinStep(st: Store, body: Field, now: int, format: int -> string): (JoinOutcome, Store)
  {
    var o := Decide(st.participants, body);
    if o.Created? then
      (o, Store(st.participants + [Participant(body.s, now)],
                st.messages + [Announcement(body.s, format(now))]))
    else
      (o, st)
  }

  /** An invalid name is answered with its violations and changes nothing. */
  lemma JoinInvalidUnchanged(st: Store, body: Field, now: int, format: int -> string)
    requires ValidateName(body) != []
    ensures JoinStep(st, body, now, format) == (Invalid(ValidateName(body)), st)
  {
  }

  /** A name some participant already has is a conflict and changes nothing. */
  lemma JoinConflictUnchanged(st: Store, name: string, now: int, format: int -> string)
    requires name != ""
    requires exists i :: 0 <= i < |st.participants| && st.participants[i].name == name
    ensures JoinStep(st, Str(name), now, format) == (Conflict, st)
  {
  }

  /** A new name adds exactly one participant, stamped with `now`, and exactly
      one join announcement whose time renders that same timestamp; the old
      records are kept, in order, in front of them. */
  lemma JoinCreatedAppends(st: Store, name: string, now: int, format: int -> string)
    requires name != ""
    requires forall i :: 0 <= i < |st.participants| ==> st.participants[i].name != name
    ensures var (o, st') := JoinStep(st, Str(name), now, format);
      && o == Created
      && |st'.participants| == |st.participants| + 1
      && st'.participants[..|st.participants|] == st.participants
      && st'.participants[|st.participants|] == Participant(name, now)
      && |st'.messages| == |st.messages| + 1
      && st'.messages[..|st.messages|] == st.messages
      && st'.messages[|st.messages|] == ChatMessage(name, "Todos", "entra na sala...", "status", format(now))
  {
  }

  /** Every join keeps the participant names unique. */
  lemma JoinPreservesUnique(st: Store, body: Field, now: int, format: int -> string)
    requires NamesUnique(st.participants)
    ensures NamesUnique(JoinStep(st, body, now, format).1.participants)
  {
  }

  /** Every join keeps every participant name non-empty: only a name that
      passed the schema is ever inserted. */
  lemma JoinPreservesNonEmpty(st: Store, body: Field, now: int, format: int -> string)
    requires NamesNonEmpty(st.participants)
    ensures NamesNonEmpty(JoinStep(st, body, now, format).1.participants)
  {
  }

  /** After a successful join the registry holds exactly one participant with
      the joined name. */
  lemma JoinedNameOccursOnce(st: Store, body: Field, now: int, format: int -> string)
    requires JoinStep(st, body, now, format).0.Created?
    ensures Occurrences(JoinStep(st, body, now, format).1.participants, body.s) == 1
  {
    OccurrencesZero(st.participants, body.s);
    OccurrencesAppend(st.participants, Participant(body.s, now), body.s);
  }

  /** Joining again with a name that has just joined, at any later time, is a
      conflict and adds neither a participant nor a message. */
  lemma RejoinConflicts(st: Store, name: string, now: int, later: int, format: int -> string)
    requires JoinStep(st, Str(name), now, format).0.Created?
    ensures var st' := JoinStep(st, Str(name), now, format).1;
      JoinStep(st', Str(name), later, format) == (Conflict, st')
  {
    var st' := JoinStep(st, Str(name), now, format).1;
    assert st'.participants[|st.participants|].name == name;
  }

  /** One join request: the body's `name` member and the clock reading. */
  datatype JoinRequest = JoinRequest(body: Field, now: int)

  /** The collections after handling `requests` in order, starting empty. */
  function Replay(requests: seq<JoinRequest>, format: int -> string): Store
  {
    if requests == [] then Store([], [])
    else
      var last := requests[|requests| - 1];
      JoinStep(Replay(requests[..|requests| - 1], format), last.body, last.now, format).1
  }

  /** Participants and messages correspond one to one: the i-th message is the
      announcement of the i-th participant, timed by that participant's
      `lastStatus`. */
  ghost predicate Announced(st: Store, format: int -> string)
  {
    && |st.messages| == |st.participants|
    && forall i :: 0 <= i < |st.participants| ==>
         st.messages[i] == Announcement(st.participants[i].name, format(st.participants[i].lastStatus))
  }

  /** Starting from empty collections, no sequence of joins creates two
      participants with the same name. */
  lemma {:induction false} ReplayUnique(requests: seq<JoinRequest>, format: int -> string)
    ensures NamesUnique(Replay(requests, format).participants)
  {
    if requests != [] {
      var prefix := requests[..|requests| - 1];
      var last := requests[|requests| - 1];
      ReplayUnique(prefix, format);
      JoinPreservesUnique(Replay(prefix, format), last.body, last.now, format);
    }
  }

  /** Starting from empty collections, no sequence of joins creates a
      participant with an empty name. */
  lemma {:induction false} ReplayNonEmpty(requests: seq<JoinRequest>, format: int -> string)
    ensures NamesNonEmpty(Replay(requests, format).participants)
  {
    if requests != [] {
      var prefix := requests[..|requests| - 1];
      var last := requests[|requests| - 1];
      ReplayNonEmpty(prefix, format);
      JoinPreservesNonEmpty(Replay(prefix, format), last.body, last.now, format);
    }
  }

  /** Starting from empty collections, every participant has exactly its own
      join announcement, and the announcement's time renders the same timestamp
      the participant was stamped with. */
  lemma {:induction false} ReplayAnnounced(requests: seq<JoinRequest>, format: int -> string)
    ensures Announced(Replay(requests, format), format)
  {
    if requests != [] {
      var prefix := requests[..|requests| - 1];
      ReplayAnnounced(prefix, format);
    }
  }

  /** The server's view of the two collections, with the clock's formatter. */
  class ChatServer {
    var participants: seq<Participant>
    var messages: seq<ChatMessage>
    /** Renders a timestamp as the hour-minute-second string of a message. */
    const format: int -> string

    /** The registry invariant: participant names are unique and non-empty. */
    ghost predicate Valid()
      reads this
    {
      NamesUnique(participants) && NamesNonEmpty(participants)
    }

    ghost function Snapshot(): Store
      reads this
    {
      Store(participants, messages)
    }

    constructor (format: int -> string)
      ensures Valid()
      ensures participants == [] && messages == [] && this.format == format
    {
      participants := [];
      messages := [];
      this.format := format;
    }

    /** `POST /participants`: validate, look the name up, then insert the
        participant and its announcement, both stamped from one reading `now`. */
    method Join(body: Field, now: int) returns (o: JoinOutcome)
      modifies this
      ensures (o, Snapshot()) == JoinStep(old(Snapshot()), body, now, format)
      ensures o == Decide(old(participants), body)
      ensures !o.Created? ==> participants == old(participants) && messages == old(messages)
      ensures o.Created? ==>
                && participants == old(participants) + [Participant(body.s, now)]
                && messages == old(messages) + [Announcement(body.s, format(now))]
      ensures old(Valid()) ==> Valid()
    {
      var details := ValidateName(body);
      if details != [] {
        return Invalid(details);
      }
      var name := body.s;
      var participant := FindOne(participants, name);
      if participant.Some? {
        return Conflict;
      }
      var timestamp := now;
      AppendUnique(participants, Participant(name, timestamp));
      participants := participants + [Participant(name, timestamp)];
      var message := Announcement(name, format(timestamp));
      messages := messages + [message];
      return Created;
    }

    /** `GET /participants`: every participant, in store order; nothing changes. */
    method List() returns (ps: seq<Participant>)
      ensures ps == participants
    {
      ps := participants;
    }
  }
}
