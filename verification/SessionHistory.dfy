/** What the recorded events say about session ids (src/cache.c): which are open, and since when. */
module SessionHistory {
  import opened Ids
  import opened Tables
  import opened Protocol

  /** The open sessions after one more event. */
  function Next(open: map<Id, Session>, e: Event): map<Id, Session> {
    match e
    case Issued(id, session) => open[id := session]
    case Passed(id, session) => if session.unicast then open - {id} else open
    case Expired(_, ids) => open - ids
    case _ => open
  }

  /** The sessions that are open after a trace. */
  function Open(trace: seq<Event>): map<Id, Session> {
    if trace == [] then map[] else Next(Open(trace[..|trace| - 1]), trace[|trace| - 1])
  }

  /** Only a new id is issued, only an open session passes, and exactly the overdue ones expire. */
  predicate LawfulNext(open: map<Id, Session>, e: Event) {
    match e
    case Issued(id, session) => id !in open
    case Passed(id, session) => id in open && open[id] == session
    case Expired(now, ids) => ids == Overdue(open, now)
    case _ => true
  }

  /** A callback with an address answers a reply that has just passed its session check. */
  predicate Answers(trace: seq<Event>, e: Event) {
    e.Callback? && e.found ==> JustPassed(trace)
  }

  predicate JustPassed(trace: seq<Event>) {
    trace != [] && trace[|trace| - 1].Passed?
  }

  predicate Lawful(trace: seq<Event>) {
    if trace == [] then true
    else
      var front, last := trace[..|trace| - 1], trace[|trace| - 1];
      Lawful(front) && LawfulNext(Open(front), last) && Answers(front, last)
  }

  /** An event after which a session of this id and kind is open no longer: it passed and was
      unicast, an expiry found it overdue, or the id was issued anew. */
  predicate Ends(e: Event, id: Id, session: Session) {
    match e
    case Issued(x, _) => x == id
    case Passed(x, s) => x == id && s.unicast
    case Expired(now, _) => now > session.time
    case _ => false
  }

  /** The session was issued at position j and nothing between j and i ended it. */
  predicate OpenSince(trace: seq<Event>, j: nat, i: nat, id: Id, session: Session)
    requires j < i <= |trace|
  {
    && trace[j] == Issued(id, session)
    && forall k :: j < k < i ==> !Ends(trace[k], id, session)
  }

  /** In a lawful trace a session is open exactly when it was issued and nothing has ended it since. */
  lemma OpenIff(trace: seq<Event>, id: Id, session: Session)
    requires Lawful(trace)
    ensures (id in Open(trace) && Open(trace)[id] == session)
        <==> exists j: nat :: j < |trace| && OpenSince(trace, j, |trace|, id, session)
  {
    if id in Open(trace) && Open(trace)[id] == session {
      var j := IssuedBefore(trace, id, session);
    }
    forall j: nat | j < |trace| && OpenSince(trace, j, |trace|, id, session)
      ensures id in Open(trace) && Open(trace)[id] == session
    {
      StillOpen(trace, j, id, session);
    }
  }

  lemma {:induction false} IssuedBefore(trace: seq<Event>, id: Id, session: Session) returns (j: nat)
    requires Lawful(trace) && id in Open(trace) && Open(trace)[id] == session
    ensures j < |trace| && OpenSince(trace, j, |trace|, id, session)
    decreases |trace|
  {
    var front, last := trace[..|trace| - 1], trace[|trace| - 1];
    if last == Issued(id, session) {
      j := |trace| - 1;
    } else {
      j := IssuedBefore(front, id, session);
      forall k | j < k < |trace|
        ensures !Ends(trace[k], id, session)
      {
        if k < |front| {
          assert front[k] == trace[k];
        }
      }
    }
  }

  lemma {:induction false} StillOpen(trace: seq<Event>, j: nat, id: Id, session: Session)
    requires Lawful(trace) && j < |trace| && OpenSince(trace, j, |trace|, id, session)
    ensures id in Open(trace) && Open(trace)[id] == session
    decreases |trace|
  {
    if j < |trace| - 1 {
      var front := trace[..|trace| - 1];
      assert forall k :: 0 <= k < |front| ==> front[k] == trace[k];
      StillOpen(front, j, id, session);
      assert !Ends(trace[|trace| - 1], id, session);
    }
  }

  lemma {:induction false} LawfulPrefix(trace: seq<Event>, i: nat)
    requires Lawful(trace) && i < |trace|
    ensures Lawful(trace[..i]) && LawfulNext(Open(trace[..i]), trace[i]) && Answers(trace[..i], trace[i])
    decreases |trace|
  {
    if i < |trace| - 1 {
      var front := trace[..|trace| - 1];
      LawfulPrefix(front, i);
      assert front[..i] == trace[..i];
    }
  }

  /** Whatever passes was issued before, and nothing has ended it in between. */
  lemma PassedWasOpen(trace: seq<Event>, i: nat) returns (j: nat)
    requires Lawful(trace) && i < |trace| && trace[i].Passed?
    ensures j < i && OpenSince(trace, j, i, trace[i].id, trace[i].session)
  {
    LawfulPrefix(trace, i);
    j := IssuedBefore(trace[..i], trace[i].id, trace[i].session);
    assert trace[..i][j] == trace[j];
    forall k | j < k < i
      ensures !Ends(trace[k], trace[i].id, trace[i].session)
    {
      assert trace[..i][k] == trace[k];
    }
  }

  /** Between two passes of a unicast id it was issued again. */
  lemma OnePassPerIssue(trace: seq<Event>, i: nat, i': nat) returns (j: nat)
    requires Lawful(trace) && i < i' < |trace|
    requires trace[i].Passed? && trace[i].session.unicast
    requires trace[i'].Passed? && trace[i'].id == trace[i].id
    ensures i < j < i' && trace[j] == Issued(trace[i].id, trace[i'].session)
  {
    j := PassedWasOpen(trace, i');
  }

  lemma OneMoreEvent(trace: seq<Event>, e: Event)
    ensures Open(trace + [e]) == Next(Open(trace), e)
    ensures Lawful(trace + [e]) <==> Lawful(trace) && LawfulNext(Open(trace), e) && Answers(trace, e)
  {
    assert (trace + [e])[..|trace + [e]| - 1] == trace;
  }
}
