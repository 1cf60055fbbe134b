/** The message log of an interview session: the rows `pages/api/interview/ask.js`
    writes and `pages/api/interview/analyze.js` reads. */
module Transcript {

  /** One stored message: its id, its session, its text, and whether the
      candidate (rather than the interviewer) wrote it. */
  datatype Message = Message(id: nat, sessionId: string, text: string, isUser: bool)

  /** `messages.filter(m => m.isUser)`. */
  function UserMessages(messages: seq<Message>): (r: seq<Message>)
    ensures |r| <= |messages|
    ensures forall i :: 0 <= i < |r| ==> r[i].isUser
    ensures r == [] <==> forall i :: 0 <= i < |messages| ==> !messages[i].isUser
  {
    if messages == [] then []
    else (if messages[0].isUser then [messages[0]] else []) + UserMessages(messages[1..])
  }

  /** `userMessages.map(m => m.text)`. */
  function Texts(messages: seq<Message>): (r: seq<string>)
    ensures |r| == |messages|
    ensures forall i :: 0 <= i < |r| ==> r[i] == messages[i].text
  {
    seq(|messages|, i requires 0 <= i < |messages| => messages[i].text)
  }

  /** The messages of one session, in the order they were written
      (`findMany({ where: { sessionId }, orderBy: { createdAt: 'asc' } })`). */
  function MessagesOf(messages: seq<Message>, sessionId: string): (r: seq<Message>)
    ensures |r| <= |messages|
    ensures forall i :: 0 <= i < |r| ==> r[i].sessionId == sessionId
  {
    if messages == [] then []
    else (if messages[0].sessionId == sessionId then [messages[0]] else []) + MessagesOf(messages[1..], sessionId)
  }

  /** Appending a message of another session leaves a session's transcript
      as it was; appending one of its own extends it by that message. */
  lemma {:induction false} MessagesOfAppend(messages: seq<Message>, m: Message, sessionId: string)
    ensures MessagesOf(messages + [m], sessionId)
         == MessagesOf(messages, sessionId) + (if m.sessionId == sessionId then [m] else [])
  {
    if messages == [] {
      assert [m][1..] == [];
    } else {
      assert (messages + [m])[1..] == messages[1..] + [m];
      MessagesOfAppend(messages[1..], m, sessionId);
    }
  }

  /** The candidate's messages are exactly the messages written by the
      candidate. */
  lemma {:induction false} UserMessagesMembers(messages: seq<Message>, m: Message)
    ensures m in UserMessages(messages) <==> m in messages && m.isUser
  {
    if messages != [] {
      UserMessagesMembers(messages[1..], m);
      assert messages == [messages[0]] + messages[1..];
    }
  }

  /** A session's transcript holds exactly the stored messages of that
      session. */
  lemma {:induction false} MessagesOfMembers(messages: seq<Message>, sessionId: string, m: Message)
    ensures m in MessagesOf(messages, sessionId) <==> m in messages && m.sessionId == sessionId
  {
    if messages != [] {
      MessagesOfMembers(messages[1..], sessionId, m);
      assert messages == [messages[0]] + messages[1..];
    }
  }
}
