/**
 * The pure parts of `ChatApp.Connection` outside the dispatcher: the
 * server address it falls back to (js/chatapp.js:89-92) and the long-poll
 * request address built from the cursor (js/chatapp.js:120).
 */
module Connection {
  import opened Results
  import opened Text
  import opened Iso8601
  import opened Events

  const DefaultServerUri: string := "http://localhost:8080/"

  /**
   * `if (!serverUri) serverUri = 'http://localhost:8080/'`: an absent
   * (`undefined`) or empty address is falsy and replaced by the default.
   */
  function ServerUriOrDefault(serverUri: Option<string>): (r: string)
    ensures r != ""
    ensures serverUri.Some? && serverUri.value != "" ==> r == serverUri.value
    ensures serverUri.None? || serverUri.value == "" ==> r == DefaultServerUri
  {
    match serverUri
    case Some(uri) => if uri == "" then DefaultServerUri else uri
    case None => DefaultServerUri
  }

  /** The address `listen` requests: the cursor goes in `since`, printed as JavaScript prints a safe integer. */
  function PollUrl(serverUri: string, lastSequence: int, nickName: string, email: string): string {
    serverUri + "eventpoll?since=" + IntToDecimal(lastSequence) + "&nickName=" + nickName + "&email=" + email
  }

  /**
   * What a server reads from a poll address: the text between
   * `eventpoll?since=` and the next '&', as an integer. None when the
   * address is not a poll address for `serverUri` or the value is not an
   * integer.
   */
  function SinceParam(url: string, serverUri: string): Option<int> {
    var prefix := serverUri + "eventpoll?since=";
    if |prefix| <= |url| && url[..|prefix|] == prefix then
      ParseInteger(Split(url[|prefix|..], '&')[0])
    else None
  }

  /**
   * The poll address carries the cursor exactly: reading `since` back gives
   * `lastSequence`, whatever the nickname and email hold.
   */
  lemma PollUrlCarriesCursor(serverUri: string, lastSequence: int, nickName: string, email: string)
    ensures SinceParam(PollUrl(serverUri, lastSequence, nickName, email), serverUri) == Some(lastSequence)
  {
    var prefix := serverUri + "eventpoll?since=";
    var digits := IntToDecimal(lastSequence);
    var tail := "nickName=" + nickName + "&email=" + email;
    var url := PollUrl(serverUri, lastSequence, nickName, email);
    assert url == prefix + (digits + ['&'] + tail);
    assert url[..|prefix|] == prefix;
    assert url[|prefix|..] == digits + ['&'] + tail;
    SplitAtFirst(digits, '&', tail);
    IntToDecimalRoundTrip(lastSequence);
  }

  /**
   * After a batch that runs to the end, the next poll asks for events
   * since the sequence of the batch's last event.
   */
  lemma NextPollResumesAfterBatch(st: State, events: seq<Event>, serverUri: string, nickName: string, email: string)
    requires |events| > 0
    requires ParseEvents(st, events).Done?
    ensures SinceParam(PollUrl(serverUri, ParseEvents(st, events).state.lastSequence, nickName, email), serverUri)
         == Some(events[|events| - 1].sequence)
  {
    CursorIsLastSequence(st, events);
    PollUrlCarriesCursor(serverUri, ParseEvents(st, events).state.lastSequence, nickName, email);
  }

  /**
   * The message scenario: a poll returning
   * `[{sequence: 5, type: "message", nickName: "bob", message: "hi",
   * dateTime: "2013-01-01T00:00:00Z", gravatar: "g2"}]` adds one message
   * with body "hi" at midnight UTC on 2013-01-01, sets the cursor to 5, and
   * the next poll asks for `since=5`.
   */
  lemma BobSaysHi(st: State, e: Event, serverUri: string, nickName: string, email: string)
    requires e == Event(5, "message", "bob", "hi", "2013-01-01T00:00:00Z", "g2")
    ensures ParseEvents(st, [e]).Done?
    ensures ParseEvents(st, [e]).state.messages
         == st.messages + [Message("hi", "bob", UtcDate(2013, 0, 1, 0, 0, 0, None), "g2")]
    ensures ParseEvents(st, [e]).state.users == st.users
    ensures SinceParam(PollUrl(serverUri, ParseEvents(st, [e]).state.lastSequence, nickName, email), serverUri) == Some(5)
  {
    var y, mo, d, zero := "2013", "01", "01", "00";
    DigitFacts();
    assert Timestamp(y, mo, d, zero, zero, zero, None, "Z") == e.dateTime;
    ParseWellFormed(y, mo, d, zero, zero, zero, None, "Z");
    SingleEvent(st, e);
    assert KindOf(e.eventType) == MessageKind;
    CursorIsLastSequence(st, [e]);
    PollUrlCarriesCursor(serverUri, 5, nickName, email);
  }
}
