/**
 * The connection's event dispatcher, `Connection.parseEvents`
 * (js/chatapp.js:155-196): a left fold over one poll response that moves
 * the `lastSequence` cursor and appends to or removes from the message and
 * user collections, which are modelled as plain sequences.
 */
module Events {
  import opened Results
  import opened Iso8601

  /**
   * One element of the JSON array a poll returns. `eventType` is the
   * `type` field; `message`, `dateTime` and `gravatar` are read only by the
   * event types that use them.
   */
  datatype Event = Event(sequence: int, eventType: string, nickName: string,
                         message: string, dateTime: string, gravatar: string)

  /** The cases of the `switch (event.type)`; every other type is Unknown. */
  datatype EventKind = MessageKind | JoinKind | PartKind | UnknownKind

  /** Which case of the switch a `type` string selects (strict string equality). */
  function KindOf(eventType: string): EventKind {
    if eventType == "message" then MessageKind
    else if eventType == "join" then JoinKind
    else if eventType == "part" then PartKind
    else UnknownKind
  }

  /** An entry of the message collection (the Message model's attributes). */
  datatype Message = Message(message: string, nickName: string, dateTime: Date, gravatar: string)

  /** An entry of the user collection (the User model's attributes). */
  datatype User = User(nickName: string, gravatar: string)

  /** What parseEvents changes: the cursor and the two collections, in insertion order. */
  datatype State = State(lastSequence: int, messages: seq<Message>, users: seq<User>)

  /**
   * Where processing stopped. A `message` event whose `dateTime` makes
   * parseISO8601 throw aborts the loop: the cursor has already moved to that
   * event's sequence, the message is not added and later events are not
   * processed.
   */
  datatype Outcome = Done(state: State) | Threw(state: State, error: ParseError)

  /** A fresh connection: `lastSequence : 0` and empty collections. */
  const Initial: State := State(0, [], [])

  /** `Collection.find`: the index of the first user with the given nickname (strict equality). */
  function FirstIndex(users: seq<User>, nickName: string): (r: Option<nat>)
    ensures r.None? <==> forall i :: 0 <= i < |users| ==> users[i].nickName != nickName
    ensures r.Some? ==> r.value < |users| && users[r.value].nickName == nickName
    ensures r.Some? ==> forall j :: 0 <= j < r.value ==> users[j].nickName != nickName
    decreases |users|
  {
    if |users| == 0 then None
    else if users[0].nickName == nickName then Some(0)
    else
      match FirstIndex(users[1..], nickName)
      case None => None
      case Some(k) => Some(k + 1)
  }

  /**
   * `remove(find(...))`: drops the first user with the given nickname and
   * keeps the others in order; removing `undefined` (no match) does nothing.
   */
  function RemoveFirst(users: seq<User>, nickName: string): (r: seq<User>)
    ensures FirstIndex(users, nickName).None? ==> r == users
    ensures FirstIndex(users, nickName).Some? ==>
              var k := FirstIndex(users, nickName).value;
              r == users[..k] + users[k + 1..]
    decreases |users|
  {
    if |users| == 0 then []
    else if users[0].nickName == nickName then users[1..]
    else [users[0]] + RemoveFirst(users[1..], nickName)
  }

  /** One iteration of the loop body: move the cursor, then dispatch on the type. */
  function Step(st: State, e: Event): Outcome {
    var moved := st.(lastSequence := e.sequence);
    match KindOf(e.eventType)
    case MessageKind =>
      (match ParseISO8601(e.dateTime)
       case Failure(err) => Threw(moved, err)
       case Success(date) =>
         Done(moved.(messages := moved.messages + [Message(e.message, e.nickName, date, e.gravatar)])))
    case JoinKind =>
      Done(moved.(users := moved.users + [User(e.nickName, e.gravatar)]))
    case PartKind =>
      Done(moved.(users := RemoveFirst(moved.users, e.nickName)))
    case UnknownKind =>
      Done(moved)
  }

  /** The whole loop as a left fold over the events, in array order. */
  function ParseEvents(st: State, events: seq<Event>): Outcome
    decreases |events|
  {
    if |events| == 0 then Done(st)
    else
      match Step(st, events[0])
      case Threw(s, err) => Threw(s, err)
      case Done(s) => ParseEvents(s, events[1..])
  }

  /** A one-event batch is one iteration of the loop. */
  lemma SingleEvent(st: State, e: Event)
    ensures ParseEvents(st, [e]) == Step(st, e)
  {
    assert [e][1..] == [];
  }

  /** Continues processing from an outcome: a thrown outcome stays as it is. */
  function Then(o: Outcome, events: seq<Event>): Outcome {
    match o
    case Done(s) => ParseEvents(s, events)
    case Threw(_, _) => o
  }

  /** parseEvents as the source writes it: a counted loop that mutates the state in place. */
  method ParseEventsLoop(st: State, events: seq<Event>) returns (out: Outcome)
    ensures out == ParseEvents(st, events)
  {
    var current := st;
    var ii := 0;
    while ii < |events|
      invariant 0 <= ii <= |events|
      invariant ParseEvents(st, events) == ParseEvents(current, events[ii..])
      decreases |events| - ii
    {
      assert events[ii..][1..] == events[ii + 1..];
      var o := Step(current, events[ii]);
      if o.Threw? {
        return o;
      }
      current := o.state;
      ii := ii + 1;
    }
    return Done(current);
  }

  // ---------------------------------------------------------------------
  // Whole-batch properties
  // ---------------------------------------------------------------------

  /** An empty poll response changes nothing. */
  lemma EmptyBatch(st: State)
    ensures ParseEvents(st, []) == Done(st)
  {
  }

  /** Processing `a + b` is processing `a` and then, if it did not throw, `b`. */
  lemma {:induction false} FoldComposition(st: State, a: seq<Event>, b: seq<Event>)
    ensures ParseEvents(st, a + b) == Then(ParseEvents(st, a), b)
    decreases |a|
  {
    if |a| == 0 {
      assert a + b == b;
    } else {
      assert (a + b)[0] == a[0];
      assert (a + b)[1..] == a[1..] + b;
      match Step(st, a[0])
      case Threw(_, _) =>
      case Done(s) =>
        FoldComposition(s, a[1..], b);
    }
  }

  /** No `message` event in the batch carries a `dateTime` that makes parseISO8601 throw. */
  predicate DatesReadable(events: seq<Event>) {
    forall i :: 0 <= i < |events| && KindOf(events[i].eventType) == MessageKind ==> ParseISO8601(events[i].dateTime).Success?
  }

  /** The loop runs to the end exactly when no message timestamp throws. */
  lemma {:induction false} CompletesIffDatesReadable(st: State, events: seq<Event>)
    ensures ParseEvents(st, events).Done? <==> DatesReadable(events)
    decreases |events|
  {
    if |events| > 0 {
      var e := events[0];
      assert forall i :: 1 <= i < |events| ==> events[i] == events[1..][i - 1];
      match Step(st, e)
      case Threw(_, _) =>
        assert KindOf(e.eventType) == MessageKind && !ParseISO8601(e.dateTime).Success?;
      case Done(s) =>
        CompletesIffDatesReadable(s, events[1..]);
        assert DatesReadable(events) <==> DatesReadable(events[1..]) by {
          assert forall i :: 0 <= i < |events[1..]| ==> events[1..][i] == events[i + 1];
        }
    }
  }

  /**
   * After a batch that runs to the end, the cursor holds the sequence of the
   * batch's last event, whatever that event's type.
   */
  lemma {:induction false} CursorIsLastSequence(st: State, events: seq<Event>)
    requires |events| > 0
    requires ParseEvents(st, events).Done?
    ensures ParseEvents(st, events).state.lastSequence == events[|events| - 1].sequence
    decreases |events|
  {
    var s := Step(st, events[0]).state;
    if |events| > 1 {
      CursorIsLastSequence(s, events[1..]);
    }
  }

  /**
   * A batch that throws stops at the first message event whose timestamp
   * throws: everything before it is applied, the cursor moves to its
   * sequence, and nothing after it is processed.
   */
  lemma ThrowStopsAtEvent(st: State, events: seq<Event>, k: nat)
    requires k < |events|
    requires DatesReadable(events[..k])
    requires KindOf(events[k].eventType) == MessageKind && ParseISO8601(events[k].dateTime).Failure?
    ensures ParseEvents(st, events)
         == Threw(ParseEvents(st, events[..k]).state.(lastSequence := events[k].sequence),
                  ParseISO8601(events[k].dateTime).error)
  {
    assert events == events[..k] + [events[k]] + events[k + 1..];
    CompletesIffDatesReadable(st, events[..k]);
    FoldComposition(st, events[..k] + [events[k]], events[k + 1..]);
    FoldComposition(st, events[..k], [events[k]]);
  }

  /** The message records a batch adds, in the order of its `message` events. */
  function MessagesOf(events: seq<Event>): seq<Message>
    decreases |events|
  {
    if |events| == 0 then []
    else
      var e := events[0];
      var rest := MessagesOf(events[1..]);
      if KindOf(e.eventType) == MessageKind && ParseISO8601(e.dateTime).Success? then
        [Message(e.message, e.nickName, ParseISO8601(e.dateTime).value, e.gravatar)] + rest
      else rest
  }

  /**
   * The message collection only grows: a completed batch appends one record
   * per `message` event, in event order, and keeps every earlier message.
   */
  lemma {:induction false} MessagesAppendInOrder(st: State, events: seq<Event>)
    requires ParseEvents(st, events).Done?
    ensures ParseEvents(st, events).state.messages == st.messages + MessagesOf(events)
    decreases |events|
  {
    if |events| == 0 {
      assert st.messages + [] == st.messages;
    } else {
      var s := Step(st, events[0]).state;
      MessagesAppendInOrder(s, events[1..]);
    }
  }

  /** Messages and unknown events leave the user collection alone. */
  lemma {:induction false} UsersChangeOnlyOnJoinOrPart(st: State, events: seq<Event>)
    requires forall i :: 0 <= i < |events| ==> KindOf(events[i].eventType) != JoinKind && KindOf(events[i].eventType) != PartKind
    ensures ParseEvents(st, events).state.users == st.users
    decreases |events|
  {
    if |events| > 0 {
      match Step(st, events[0])
      case Threw(_, _) =>
      case Done(s) =>
        assert forall i :: 0 <= i < |events[1..]| ==> events[1..][i] == events[i + 1];
        UsersChangeOnlyOnJoinOrPart(s, events[1..]);
    }
  }

  // ---------------------------------------------------------------------
  // The event types, each as the last event of a completed batch
  // ---------------------------------------------------------------------

  /**
   * A `message` event appends exactly one record, carrying the event's
   * message, nickname and gravatar and the parsed timestamp, at the end of
   * the message list; the user list is unchanged.
   */
  lemma MessageEventAppends(st: State, events: seq<Event>, e: Event)
    requires ParseEvents(st, events).Done?
    requires KindOf(e.eventType) == MessageKind && ParseISO8601(e.dateTime).Success?
    ensures var before := ParseEvents(st, events).state;
            ParseEvents(st, events + [e])
            == Done(State(e.sequence,
                          before.messages + [Message(e.message, e.nickName, ParseISO8601(e.dateTime).value, e.gravatar)],
                          before.users))
  {
    FoldComposition(st, events, [e]);
    SingleEvent(ParseEvents(st, events).state, e);
  }

  /**
   * A `join` event appends `{nickName, gravatar}` to the end of the user
   * list, without checking for an existing user of that nickname; the
   * message list is unchanged.
   */
  lemma JoinEventAppends(st: State, events: seq<Event>, e: Event)
    requires ParseEvents(st, events).Done?
    requires KindOf(e.eventType) == JoinKind
    ensures var before := ParseEvents(st, events).state;
            ParseEvents(st, events + [e])
            == Done(State(e.sequence, before.messages, before.users + [User(e.nickName, e.gravatar)]))
  {
    FoldComposition(st, events, [e]);
    SingleEvent(ParseEvents(st, events).state, e);
  }

  /**
   * A `part` event removes only the first user with the event's nickname and
   * keeps the others in order; with no such user the list is unchanged. The
   * message list is unchanged either way.
   */
  lemma PartEventRemovesFirst(st: State, events: seq<Event>, e: Event)
    requires ParseEvents(st, events).Done?
    requires KindOf(e.eventType) == PartKind
    ensures var before := ParseEvents(st, events).state;
            var after := ParseEvents(st, events + [e]);
            && after.Done?
            && after.state.lastSequence == e.sequence
            && after.state.messages == before.messages
            && (match FirstIndex(before.users, e.nickName)
                case None => after.state.users == before.users
                case Some(k) => after.state.users == before.users[..k] + before.users[k + 1..])
  {
    FoldComposition(st, events, [e]);
    SingleEvent(ParseEvents(st, events).state, e);
  }

  /** Any other event type moves the cursor and changes nothing else. */
  lemma OtherEventMovesOnlyCursor(st: State, events: seq<Event>, e: Event)
    requires ParseEvents(st, events).Done?
    requires KindOf(e.eventType) == UnknownKind
    ensures ParseEvents(st, events + [e])
         == Done(ParseEvents(st, events).state.(lastSequence := e.sequence))
  {
    FoldComposition(st, events, [e]);
    SingleEvent(ParseEvents(st, events).state, e);
  }

  /**
   * A `message` event whose timestamp throws moves the cursor and aborts the
   * batch; neither collection changes.
   */
  lemma UnreadableMessageThrows(st: State, events: seq<Event>, e: Event, rest: seq<Event>)
    requires ParseEvents(st, events).Done?
    requires KindOf(e.eventType) == MessageKind && ParseISO8601(e.dateTime).Failure?
    ensures ParseEvents(st, events + [e] + rest)
         == Threw(ParseEvents(st, events).state.(lastSequence := e.sequence), ParseISO8601(e.dateTime).error)
  {
    FoldComposition(st, events + [e], rest);
    FoldComposition(st, events, [e]);
    SingleEvent(ParseEvents(st, events).state, e);
  }

  // ---------------------------------------------------------------------
  // The user list under join and part
  // ---------------------------------------------------------------------

  /** How many users carry the given nickname. */
  function CountNick(users: seq<User>, nickName: string): nat
    decreases |users|
  {
    if |users| == 0 then 0
    else (if users[0].nickName == nickName then 1 else 0) + CountNick(users[1..], nickName)
  }

  lemma {:induction false} CountNickAppend(users: seq<User>, u: User, nickName: string)
    ensures CountNick(users + [u], nickName) == CountNick(users, nickName) + (if u.nickName == nickName then 1 else 0)
    decreases |users|
  {
    if |users| > 0 {
      assert (users + [u])[1..] == users[1..] + [u];
      CountNickAppend(users[1..], u, nickName);
    }
  }

  /** Removing the first match lowers the count of that nickname by one, if there was a match. */
  lemma {:induction false} CountNickRemoveFirst(users: seq<User>, nickName: string)
    ensures CountNick(RemoveFirst(users, nickName), nickName)
         == if FirstIndex(users, nickName).Some? then CountNick(users, nickName) - 1 else CountNick(users, nickName)
    decreases |users|
  {
    if |users| > 0 && users[0].nickName != nickName {
      CountNickRemoveFirst(users[1..], nickName);
      assert ([users[0]] + RemoveFirst(users[1..], nickName))[1..] == RemoveFirst(users[1..], nickName);
    }
  }

  /** A two-event batch is two iterations of the loop. */
  lemma TwoEvents(st: State, e1: Event, e2: Event)
    ensures ParseEvents(st, [e1, e2]) == Then(Step(st, e1), [e2])
  {
    assert [e1, e2][1..] == [e2];
  }

  /** Two joins of the same nickname add two entries: join is not idempotent. */
  lemma DoubleJoinAddsTwo(st: State, e1: Event, e2: Event)
    requires KindOf(e1.eventType) == JoinKind && KindOf(e2.eventType) == JoinKind && e1.nickName == e2.nickName
    ensures ParseEvents(st, [e1, e2]).Done?
    ensures |ParseEvents(st, [e1, e2]).state.users| == |st.users| + 2
    ensures CountNick(ParseEvents(st, [e1, e2]).state.users, e1.nickName) == CountNick(st.users, e1.nickName) + 2
  {
    TwoEvents(st, e1, e2);
    SingleEvent(Step(st, e1).state, e2);
    CountNickAppend(st.users, User(e1.nickName, e1.gravatar), e1.nickName);
    CountNickAppend(st.users + [User(e1.nickName, e1.gravatar)], User(e2.nickName, e2.gravatar), e1.nickName);
  }

  /**
   * A join followed by a part of the same nickname keeps that nickname's
   * count; when nobody had the nickname before, the user list is restored
   * exactly. (When someone did, the part removes the older entry, not the
   * one just joined.)
   */
  lemma JoinThenPart(st: State, join: Event, part: Event)
    requires KindOf(join.eventType) == JoinKind && KindOf(part.eventType) == PartKind && join.nickName == part.nickName
    ensures ParseEvents(st, [join, part]).Done?
    ensures CountNick(ParseEvents(st, [join, part]).state.users, join.nickName) == CountNick(st.users, join.nickName)
    ensures FirstIndex(st.users, join.nickName).None? ==> ParseEvents(st, [join, part]).state.users == st.users
  {
    var u := User(join.nickName, join.gravatar);
    var joined := st.users + [u];
    TwoEvents(st, join, part);
    SingleEvent(Step(st, join).state, part);
    assert ParseEvents(st, [join, part]).state.users == RemoveFirst(joined, join.nickName);
    CountNickAppend(st.users, u, join.nickName);
    CountNickRemoveFirst(joined, join.nickName);
    assert joined[|st.users|].nickName == join.nickName;
    if FirstIndex(st.users, join.nickName).None? {
      assert forall i :: 0 <= i < |st.users| ==> joined[i] == st.users[i];
      assert FirstIndex(joined, join.nickName) == Some(|st.users|);
      assert joined[..|st.users|] == st.users;
    }
  }

  /** A part for a nickname nobody has is a no-op apart from the cursor. */
  lemma PartOfUnknownNickIsNoop(st: State, e: Event)
    requires KindOf(e.eventType) == PartKind
    requires forall i :: 0 <= i < |st.users| ==> st.users[i].nickName != e.nickName
    ensures ParseEvents(st, [e]) == Done(st.(lastSequence := e.sequence))
  {
  }

  /**
   * The cursor is overwritten, not advanced: a batch whose last sequence is
   * lower than the cursor moves it back.
   */
  lemma CursorCanMoveBack(e: Event)
    requires e.sequence == 3 && e.eventType == "ping"
    ensures ParseEvents(State(5, [], []), [e]) == Done(State(3, [], []))
  {
  }

  /**
   * The join scenario: a fresh connection receiving
   * `[{sequence: 1, type: "join", nickName: "alice", gravatar: "g1"}]`
   * holds exactly that one user, and the cursor is 1.
   */
  lemma AliceJoins(e: Event)
    requires e == Event(1, "join", "alice", "", "", "g1")
    ensures ParseEvents(Initial, [e]) == Done(State(1, [], [User("alice", "g1")]))
  {
  }
}
