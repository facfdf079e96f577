/** The chat panel's session state (`messages`, `inputMessage`, `isLoading`)
    and the send handler, with the simulated latency cut into two steps:
    BeginSend runs up to the `await` of the delay, CompleteResponse is what
    runs after it. */
module Chat {
  import opened Text
  import opened Coach

  /** The `type` of a message: `'user'` or `'ai'`. */
  datatype Sender = User | Ai

  /** A message of the transcript; its timestamp is not modelled. */
  datatype Message = Message(sender: Sender, content: string)

  /** How many messages of `ms` come from `s`. */
  function CountFrom(ms: seq<Message>, s: Sender): (n: nat)
    ensures n <= |ms|
  {
    if ms == [] then 0
    else CountFrom(ms[..|ms| - 1], s) + (if ms[|ms| - 1].sender == s then 1 else 0)
  }

  /** Every message is counted under exactly one sender. */
  lemma {:induction false} CountFromTotal(ms: seq<Message>)
    ensures CountFrom(ms, User) + CountFrom(ms, Ai) == |ms|
    decreases |ms|
  {
    if ms != [] {
      CountFromTotal(ms[..|ms| - 1]);
    }
  }

  /** Appending one message adds one to its sender's count only. */
  lemma CountFromAppend(ms: seq<Message>, m: Message, s: Sender)
    ensures CountFrom(ms + [m], s) == CountFrom(ms, s) + (if m.sender == s then 1 else 0)
  {
    assert (ms + [m])[..|ms|] == ms;
  }

  /** Some character of `s` is not white space; by Text.BlankIffAllWhiteSpace
      this is `!IsBlank(s)`. */
  ghost predicate HasVisible(s: string)
  {
    exists i :: 0 <= i < |s| && !IsWhiteSpace(s[i])
  }

  /** The handler's blank test, stated through the characters. */
  lemma NotBlankIffHasVisible(s: string)
    ensures !IsBlank(s) <==> HasVisible(s)
  {
    BlankIffAllWhiteSpace(s);
  }

  /** `m` may follow the transcript `before`: a user message has non-blank
      content, a coach message is the coach's reply to an earlier user message. */
  ghost predicate Fits(before: seq<Message>, m: Message)
  {
    match m.sender
    case User => HasVisible(m.content)
    case Ai => exists j :: 0 <= j < |before| && before[j].sender == User && m.content == CoachReply(before[j].content)
  }

  /** Every message of `ms` fits the messages before it. */
  ghost predicate WellFormedHistory(ms: seq<Message>)
    decreases |ms|
  {
    ms == [] || (WellFormedHistory(ms[..|ms| - 1]) && Fits(ms[..|ms| - 1], ms[|ms| - 1]))
  }

  /** The recursive definition says what its name promises: message `i` fits
      the `i` messages before it. */
  lemma {:induction false} WellFormedHistoryAt(ms: seq<Message>, i: nat)
    requires WellFormedHistory(ms)
    requires i < |ms|
    ensures Fits(ms[..i], ms[i])
    decreases |ms|
  {
    if i < |ms| - 1 {
      var init := ms[..|ms| - 1];
      WellFormedHistoryAt(init, i);
      assert init[..i] == ms[..i];
    }
  }

  /** In a well-formed history no user message is blank. */
  lemma UserMessagesNotBlank(ms: seq<Message>, i: nat)
    requires WellFormedHistory(ms)
    requires i < |ms| && ms[i].sender == User
    ensures !IsBlank(ms[i].content)
  {
    WellFormedHistoryAt(ms, i);
    NotBlankIffHasVisible(ms[i].content);
  }

  /** In a well-formed history every coach message is one of the canned
      texts, given in reply to a user message that comes before it. */
  lemma AiMessagesAnswerEarlier(ms: seq<Message>, i: nat)
    requires WellFormedHistory(ms)
    requires i < |ms| && ms[i].sender == Ai
    ensures exists j :: 0 <= j < i && ms[j].sender == User && ms[i].content == CoachReply(ms[j].content)
    ensures exists c :: ms[i].content == CannedText(c)
  {
    WellFormedHistoryAt(ms, i);
    var j :| 0 <= j < i && ms[..i][j].sender == User && ms[i].content == CoachReply(ms[..i][j].content);
    assert ms[..i][j] == ms[j];
    CoachReplyIsCanned(ms[j].content);
  }

  /** Messages alternate user, coach, user, coach, ... and come in pairs. */
  ghost predicate Alternating(ms: seq<Message>)
  {
    |ms| % 2 == 0 &&
    forall i :: 0 <= i < |ms| ==> ms[i].sender == (if i % 2 == 0 then User else Ai)
  }

  /** One full exchange keeps a transcript alternating and adds one message
      from each side. */
  lemma ExchangeKeepsAlternating(ms: seq<Message>, question: string, answer: string)
    requires Alternating(ms)
    ensures Alternating(ms + [Message(User, question), Message(Ai, answer)])
    ensures CountFrom(ms, User) == CountFrom(ms, Ai) ==>
              CountFrom(ms + [Message(User, question), Message(Ai, answer)], User) ==
              CountFrom(ms + [Message(User, question), Message(Ai, answer)], Ai)
  {
    var ms' := ms + [Message(User, question), Message(Ai, answer)];
    forall i | 0 <= i < |ms'| ensures ms'[i].sender == (if i % 2 == 0 then User else Ai) {
      if i < |ms| {
        assert ms'[i] == ms[i];
      }
    }
    CountFromAppend(ms, Message(User, question), User);
    CountFromAppend(ms, Message(User, question), Ai);
    assert ms' == (ms + [Message(User, question)]) + [Message(Ai, answer)];
    CountFromAppend(ms + [Message(User, question)], Message(Ai, answer), User);
    CountFromAppend(ms + [Message(User, question)], Message(Ai, answer), Ai);
  }

  /** Every pending input is asked by some user message of `ms`. */
  ghost predicate PendingAsked(ms: seq<Message>, pending: multiset<string>)
  {
    forall q :: q in pending ==> exists j :: 0 <= j < |ms| && ms[j] == Message(User, q)
  }

  /** Appending a message keeps every earlier question asked. */
  lemma PendingAskedAppend(ms: seq<Message>, pending: multiset<string>, m: Message)
    requires PendingAsked(ms, pending)
    ensures PendingAsked(ms + [m], pending)
  {
    forall q | q in pending ensures exists j :: 0 <= j < |ms + [m]| && (ms + [m])[j] == Message(User, q) {
      var j :| 0 <= j < |ms| && ms[j] == Message(User, q);
      assert (ms + [m])[j] == ms[j];
    }
  }

  /** The session invariant on plain values: the history is well formed, each
      pending input was asked, every user message is answered or pending, and
      the indicator is on only while some reply is pending. */
  ghost predicate Consistent(ms: seq<Message>, pending: multiset<string>, loading: bool)
  {
    WellFormedHistory(ms) && PendingAsked(ms, pending) &&
    CountFrom(ms, User) == CountFrom(ms, Ai) + |pending| &&
    (loading ==> |pending| > 0)
  }

  /** Asking a non-blank question keeps the invariant, with the question pending. */
  lemma AskKeepsConsistent(ms: seq<Message>, pending: multiset<string>, loading: bool, x: string)
    requires Consistent(ms, pending, loading)
    requires HasVisible(x)
    ensures Consistent(ms + [Message(User, x)], pending + multiset{x}, true)
  {
    var m := Message(User, x);
    var ms' := ms + [m];
    CountFromAppend(ms, m, User);
    CountFromAppend(ms, m, Ai);
    assert ms'[..|ms|] == ms;
    PendingAskedAppend(ms, pending, m);
    assert ms'[|ms|] == m;
  }

  /** Answering a pending question keeps the invariant, with that question no
      longer pending and the indicator off. */
  lemma AnswerKeepsConsistent(ms: seq<Message>, pending: multiset<string>, loading: bool, x: string)
    requires Consistent(ms, pending, loading)
    requires x in pending
    ensures Consistent(ms + [Message(Ai, CoachReply(x))], pending - multiset{x}, false)
  {
    var m := Message(Ai, CoachReply(x));
    var ms' := ms + [m];
    var k :| 0 <= k < |ms| && ms[k] == Message(User, x);
    CountFromAppend(ms, m, User);
    CountFromAppend(ms, m, Ai);
    assert ms'[..|ms|] == ms;
    assert Fits(ms, m);
    PendingAskedAppend(ms, pending, m);
  }

  class ChatSession {
    /** The transcript, oldest first. */
    var messages: seq<Message>
    /** The text in the input box. */
    var inputMessage: string
    /** Whether the "thinking" indicator is shown. */
    var isLoading: bool
    /** The inputs captured by accepted sends whose reply has not been appended yet. */
    ghost var pending: multiset<string>

    /** The session invariant, on the current fields. */
    ghost predicate Valid()
      reads this
    {
      Consistent(messages, pending, isLoading)
    }

    /** The state the component starts in: no messages, an empty box, idle. */
    constructor ()
      ensures Valid()
      ensures messages == [] && inputMessage == [] && !isLoading && pending == multiset{}
    {
      messages := [];
      inputMessage := [];
      isLoading := false;
      pending := multiset{};
    }

    /** Typing into the input box, or clicking one of the suggested questions. */
    method SetInput(text: string)
      requires Valid()
      modifies this
      ensures Valid()
      ensures inputMessage == text
      ensures messages == old(messages) && isLoading == old(isLoading) && pending == old(pending)
    {
      inputMessage := text;
    }

    /** The first part of handleSendMessage: a blank input is ignored;
        otherwise the untrimmed input becomes a user message, the input box is
        cleared and the indicator is switched on. `sent` is the input captured
        for the reply. The handler does not look at `isLoading`. */
    method BeginSend() returns (accepted: bool, sent: string)
      requires Valid()
      modifies this
      ensures Valid()
      ensures accepted <==> !IsBlank(old(inputMessage))
      ensures sent == old(inputMessage)
      ensures accepted ==>
                messages == old(messages) + [Message(User, old(inputMessage))] &&
                inputMessage == [] && isLoading && pending == old(pending) + multiset{sent}
      ensures !accepted ==>
                messages == old(messages) && inputMessage == old(inputMessage) &&
                isLoading == old(isLoading) && pending == old(pending)
    {
      sent := inputMessage;
      accepted := !IsBlank(inputMessage);
      if !accepted {
        return;
      }
      NotBlankIffHasVisible(sent);
      AskKeepsConsistent(messages, pending, isLoading, sent);
      messages, inputMessage, isLoading, pending :=
        messages + [Message(User, sent)], [], true, pending + multiset{sent};
    }

    /** What runs once the delay is over: the indicator is switched off and the
        coach's reply to the captured input is appended. */
    method CompleteResponse(sent: string)
      requires Valid()
      requires sent in pending
      modifies this
      ensures Valid()
      ensures messages == old(messages) + [Message(Ai, CoachReply(sent))]
      ensures !isLoading && inputMessage == old(inputMessage)
      ensures pending == old(pending) - multiset{sent}
    {
      var reply := CoachReply(sent);
      AnswerKeepsConsistent(messages, pending, isLoading, sent);
      messages, pending, isLoading := messages + [Message(Ai, reply)], pending - multiset{sent}, false;
    }

    /** handleSendMessage run to the end, with no other event in between: a
        blank input changes nothing; otherwise the transcript grows by the
        user message and then the coach's reply to it, and the session is
        idle again with an empty input box. */
    method HandleSendMessage() returns (accepted: bool)
      requires Valid()
      modifies this
      ensures Valid()
      ensures accepted <==> !IsBlank(old(inputMessage))
      ensures accepted ==>
                messages == old(messages) +
                  [Message(User, old(inputMessage)), Message(Ai, CoachReply(old(inputMessage)))] &&
                inputMessage == [] && !isLoading && pending == old(pending)
      ensures !accepted ==>
                messages == old(messages) && inputMessage == old(inputMessage) &&
                isLoading == old(isLoading) && pending == old(pending)
      ensures Alternating(old(messages)) ==> Alternating(messages)
    {
      ghost var before := messages;
      var sent;
      accepted, sent := BeginSend();
      if accepted {
        CompleteResponse(sent);
        if Alternating(before) {
          ExchangeKeepsAlternating(before, sent, CoachReply(sent));
        }
      }
    }
  }

  /** A conversation from a fresh session: one non-blank question that names
      marketing and not business strategy, answered with the marketing reply
      whatever else it names. */
  method MarketingConversation(question: string) returns (session: ChatSession)
    requires !IsBlank(question)
    requires Contains(ToLower(question), "marketing")
    requires !Contains(ToLower(question), "business strategy")
    ensures session.messages ==
              [Message(User, question), Message(Ai, CannedText(Marketing))]
    ensures !session.isLoading && session.inputMessage == []
  {
    session := new ChatSession();
    session.SetInput(question);
    MarketingBeforeRevenue(question);
    var accepted := session.HandleSendMessage();
  }

  /** "marketing revenue" is such a question. */
  lemma MarketingRevenueQuestion(text: string)
    requires text == "marketing revenue"
    ensures !IsBlank(text)
    ensures Contains(ToLower(text), "marketing")
    ensures !Contains(ToLower(text), "business strategy")
  {
    MarketingAndRevenueIsLower(text);
    MarketingAndRevenueKeys(text);
    BlankIffAllWhiteSpace(text);
    assert !IsWhiteSpace(text[0]);
  }
}
