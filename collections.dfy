/** The records kept in the two document collections, `participants` and
    `messages`, and the name lookup the join route performs on the first. */
module Collections {

  datatype Option<T> = None | Some(value: T)

  /** A participant document: its name and the timestamp, in milliseconds, of
      its last observed activity. */
  datatype Participant = Participant(name: string, lastStatus: int)

  /** A message document. `kind` is the document's `type` member. */
  datatype ChatMessage = ChatMessage(from: string, to: string, text: string, kind: string, time: string)

  /** `findOne({ name })` on the participant collection: some participant with
      that name, or none when no participant has it. */
  function FindOne(ps: seq<Participant>, name: string): (r: Option<Participant>)
    ensures r.Some? ==> r.value in ps && r.value.name == name
    ensures r.None? <==> forall i :: 0 <= i < |ps| ==> ps[i].name != name
  {
    if ps == [] then None
    else if ps[0].name == name then Some(ps[0])
    else FindOne(ps[1..], name)
  }

  /** No two participants share a name. */
  ghost predicate NamesUnique(ps: seq<Participant>)
  {
    forall i, j :: 0 <= i < j < |ps| ==> ps[i].name != ps[j].name
  }

  /** Every participant has a non-empty name. */
  ghost predicate NamesNonEmpty(ps: seq<Participant>)
  {
    forall i :: 0 <= i < |ps| ==> ps[i].name != ""
  }

  /** How many participants carry `name`. */
  function Occurrences(ps: seq<Participant>, name: string): nat
  {
    if ps == [] then 0
    else (if ps[0].name == name then 1 else 0) + Occurrences(ps[1..], name)
  }

  lemma {:induction false} OccurrencesZero(ps: seq<Participant>, name: string)
    ensures Occurrences(ps, name) == 0 <==> forall i :: 0 <= i < |ps| ==> ps[i].name != name
  {
    if ps != [] {
      OccurrencesZero(ps[1..], name);
      assert forall i :: 1 <= i < |ps| ==> ps[i] == ps[1..][i - 1];
    }
  }

  lemma {:induction false} OccurrencesAppend(ps: seq<Participant>, p: Participant, name: string)
    ensures Occurrences(ps + [p], name) == Occurrences(ps, name) + (if p.name == name then 1 else 0)
  {
    if ps != [] {
      assert (ps + [p])[1..] == ps[1..] + [p];
      OccurrencesAppend(ps[1..], p, name);
    }
  }

  /** Under the uniqueness invariant a name occurs at most once. */
  lemma {:induction false} UniqueOccursAtMostOnce(ps: seq<Participant>, name: string)
    requires NamesUnique(ps)
    ensures Occurrences(ps, name) <= 1
  {
    if ps != [] {
      var rest := ps[1..];
      assert NamesUnique(rest) by {
        forall i, j | 0 <= i < j < |rest| ensures rest[i].name != rest[j].name {
          assert rest[i] == ps[i + 1] && rest[j] == ps[j + 1];
        }
      }
      UniqueOccursAtMostOnce(rest, name);
      if ps[0].name == name {
        OccurrencesZero(rest, name);
        forall i | 0 <= i < |rest| ensures rest[i].name != name {
          assert rest[i] == ps[i + 1];
        }
      }
    }
  }

  /** Appending a participant keeps the names unique exactly when the old
      names were unique and the new name is not among them. */
  lemma AppendUnique(ps: seq<Participant>, p: Participant)
    ensures NamesUnique(ps + [p]) <==>
            NamesUnique(ps) && forall i :: 0 <= i < |ps| ==> ps[i].name != p.name
  {
    var qs := ps + [p];
    if NamesUnique(qs) {
      forall i, j | 0 <= i < j < |ps| ensures ps[i].name != ps[j].name {
        assert qs[i] == ps[i] && qs[j] == ps[j];
      }
      forall i | 0 <= i < |ps| ensures ps[i].name != p.name {
        assert qs[i] == ps[i] && qs[|ps|] == p;
      }
    }
  }
}
