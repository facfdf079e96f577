# AI coach chat engine

A model of the chat panel of the coaching dashboard (`src/App.js`),
together with proofs about it. The panel has two parts that carry logic.

- **The reply selector** (`simulateAIResponse`). It lower-cases the user's
  message and walks the keys of the `responses` object literal in insertion
  order: "business strategy", "marketing", "leadership", "revenue". It
  answers with the canned reply of the first key that occurs as a substring,
  and with a fixed fallback reply when none does.
- **The send handler** (`handleSendMessage`) and the state it changes: the
  transcript `messages`, the input box `inputMessage` and the "thinking"
  flag `isLoading`. A blank input is ignored. Otherwise the input, as typed,
  is appended as a user message and the input box is cleared. The flag is
  switched on, and after the simulated delay it is switched off and the
  coach's reply is appended.

Modules:

- `Text` (`text.dfy`) models `toLowerCase`, `trim` and `includes`.
- `Responder` (`responder.dfy`) is the selector over any ordered table.
- `Coach` (`coach.dfy`) is the dashboard's fixed table and its five texts.
- `Chat` (`chat.dfy`) is the session as a class with `messages`,
  `inputMessage` and `isLoading` fields.

The handler's `await` splits it into two steps:

- `BeginSend` runs up to the delay.
- `CompleteResponse` is everything after it.

`BeginSend` returns the input it captured. `CompleteResponse` takes that
input, as the JavaScript closure does. `HandleSendMessage` runs both
steps back to back.

The session invariant `Valid()` is kept by every method. It says:

- every user message is non-blank;
- every coach message is the coach's reply to an earlier user message;
- every pending input is a user message of the transcript, and there are as
  many user messages as coach messages plus pending replies;
- the flag is on only while a reply is pending.

The pending replies are a ghost multiset.

Two behaviours of the code are easy to misread. The model follows the code
in both:

- The user message holds the untrimmed input. The `trim` only decides
  whether to send (`src/App.js:60-62`).
- The handler never looks at `isLoading`. A send while a reply is pending is
  accepted. Besides the thinking indicator (`src/App.js:280`), the flag is
  read only by the Send button's `disabled` attribute (`src/App.js:305`),
  which is the only thing that stops a send while the flag is on. Pressing
  Enter (`src/App.js:299`) goes around it. So the model does not claim that
  a busy session rejects a send.

The lemmas also show how the four suggested questions of the empty panel are
answered (`src/App.js:238-256`):

- "What's the best marketing approach?" gets the marketing reply.
- "How to increase revenue?" gets the revenue reply.
- "How do I scale my business?" names no key and gets the fallback.
- "How can I be a better leader?" names no key and gets the fallback.

## Model

| member | source | states |
|---|---|---|
| Text.ToLower | src/App.js:50 | the lower-cased message has the same length, maps every character by ASCII lower-casing, and holds no upper-case letter |
| Text.LowerIsFixed | src/App.js:50 | lower-casing leaves a string with no upper-case letter unchanged |
| Text.ToLowerIdempotent | src/App.js:50 | lower-casing twice is the same as lower-casing once |
| Text.Includes | src/App.js:50 | `includes` is true exactly when the key occurs as a contiguous substring at some index |
| Text.ContainsFrontOrTail | src/App.js:50 | an occurrence is either at index 0 or an occurrence in the tail, both ways |
| Text.AbsentChar | src/App.js:50 | a key with a character that the text does not hold does not occur in it |
| Text.TooLongAbsent | src/App.js:50 | a key longer than the text does not occur in it |
| Text.LowerAbsent | src/App.js:50 | a letter the message holds in neither case is missing from its lower-cased form |
| Text.AbsentLowerChar | src/App.js:50 | a key with a letter the message holds in neither case does not occur in the lower-cased message |
| Text.ContainsLower | src/App.js:50 | a lower-case key occurring in the message also occurs in the lower-cased message |
| Text.TrimStartSpec | src/App.js:60 | trimming the front keeps a suffix, drops only white space, and leaves no white space at the front |
| Text.TrimEndSpec | src/App.js:60 | trimming the back keeps a prefix, drops only white space, and leaves no white space at the back |
| Text.TrimSpec | src/App.js:60 | `trim` keeps a contiguous part, cuts only white space, and leaves no white space at either end |
| Text.BlankIffAllWhiteSpace | src/App.js:60 | `!inputMessage.trim()` holds exactly when every character is white space |
| Text.TrimStart | src/App.js:60 | the front half of `trim()`; its contract is TrimStartSpec: a suffix is kept, only white space is dropped, and no white space is left at the front |
| Text.TrimEnd | src/App.js:60 | the back half of `trim()`; its contract is TrimEndSpec: a prefix is kept, only white space is dropped, and no white space is left at the back |
| Text.Trim | src/App.js:60 | `inputMessage.trim()`; its contract is TrimSpec: a contiguous part is kept, only white space is cut, and neither end of the result is white space |
| Text.IsBlank | src/App.js:60 | `!inputMessage.trim()`; its contract is BlankIffAllWhiteSpace: true exactly when every character is white space |
| Responder.FindKey | src/App.js:49-51 | `find` returns the index of a key contained in the text with no earlier key contained, and returns nothing exactly when no key is contained |
| Responder.Select | src/App.js:42-53 | the reply is the fallback or one of the table's replies, and it is the fallback when no key occurs in the lower-cased message |
| Responder.SelectIsFirstMatch | src/App.js:49-53 | for a well-formed table, rule k's reply is given exactly when key k occurs in the lower-cased message and no earlier key does |
| Responder.SelectFallbackIff | src/App.js:49-53 | for a well-formed table, the fallback is given exactly when no key occurs in the lower-cased message |
| Responder.SelectIgnoresCase | src/App.js:50 | a message and its lower-cased form get the same reply |
| Responder.FirstRuleWinsExample | src/App.js:49-51 | table order decides, not key length: with keys "a" then "ab", the text "xaby" gets the first reply |
| Coach.CannedText | src/App.js:42-53 | the four reply literals and the fallback literal, word for word; CannedTextsDistinct and CannedTextInjective state that they are pairwise different |
| Coach.Responses | src/App.js:42-47 | the `responses` object literal as a table in insertion order; ResponsesWellFormed states that its keys are non-empty and distinct and its outcomes distinct |
| Coach.CoachAnswer | src/App.js:49-53 | which canned answer is chosen; CoachAnswerIsFirstMatch and CoachFallbackIff state that it is the first key occurring in the lower-cased message, or the fallback exactly when none does |
| Coach.CoachReply | src/App.js:38-57 | the string `simulateAIResponse` returns; CoachReplyIsCanned states that it is always one of the five canned texts, and CoachReplyIsFirstMatch states the first-match rule on that text |
| Coach.CannedTextOpenings | src/App.js:42-53 | the canned texts begin with B, E, G, T and T |
| Coach.CannedTextSecondChars | src/App.js:46-53 | the revenue text and the fallback text differ in their second character |
| Coach.CannedTextsDistinct | src/App.js:42-53 | the five canned texts are pairwise different |
| Coach.CannedTextInjective | src/App.js:42-53 | equal reply texts mean equal canned answers |
| Coach.ResponsesWellFormed | src/App.js:42-47 | the four keys are non-empty and distinct, and the four replies and the fallback are pairwise different |
| Coach.CoachReplyIsCanned | src/App.js:42-53 | the reply is always one of the four table replies or the fallback, and it is the fallback text exactly when the fallback is chosen |
| Coach.CoachAnswerIsFirstMatch | src/App.js:42-53 | the k-th key's answer is given exactly when key k occurs in the lower-cased message and no earlier key does |
| Coach.CoachReplyIsFirstMatch | src/App.js:42-53 | the same first-match property, stated on the reply text the user sees |
| Coach.CoachFallbackIff | src/App.js:49-53 | the fallback is given exactly when none of the four keys occurs in the lower-cased message |
| Coach.CoachIgnoresCase | src/App.js:50 | a message and its lower-cased form get the same reply text |
| Coach.MarketingBeforeRevenue | src/App.js:42-51 | a message naming marketing and not business strategy gets the marketing answer, even when it names revenue |
| Coach.RevenueWhenOnlyRevenue | src/App.js:46-51 | a message naming revenue and none of the three earlier keys gets the revenue answer |
| Coach.FallbackWhenNoKey | src/App.js:49-53 | a message naming none of the keys gets the fallback |
| Coach.FallbackWhenLettersAbsent | src/App.js:49-53 | if each key has a letter the message holds in neither case, the fallback is given |
| Coach.FallbackWithoutSGV | src/App.js:49-53 | a message with no s, g or v in either case gets the fallback |
| Coach.RevenueWithoutGL | src/App.js:46-51 | a message containing "revenue" with no g or l in either case gets the revenue answer |
| Coach.MarketingAndRevenueExample | src/App.js:42-51 | "marketing revenue" gets the marketing answer, because marketing comes first |
| Coach.RevenuesExample | src/App.js:46-51 | "revenues" gets the revenue answer, because matching is raw substring containment |
| Coach.WeatherExample | src/App.js:49-53 | "what's the weather?" gets the fallback |
| Coach.ScaleBusinessQuestion | src/App.js:238 | the suggested question "How do I scale my business?" gets the fallback |
| Coach.BestMarketingQuestion | src/App.js:244 | the suggested question "What's the best marketing approach?" gets the marketing answer |
| Coach.BetterLeaderQuestion | src/App.js:250 | the suggested question "How can I be a better leader?" gets the fallback |
| Coach.IncreaseRevenueQuestion | src/App.js:256 | the suggested question "How to increase revenue?" gets the revenue answer |
| Chat.CountFrom | src/App.js:59-69 | how many messages come from one sender is at most the length of the transcript |
| Chat.CountFromTotal | src/App.js:59-69 | every message of the transcript is counted under exactly one sender: the two counts add up to its length |
| Chat.CountFromAppend | src/App.js:59-69 | appending a message adds one to its own sender's count and leaves the other count unchanged |
| Chat.NotBlankIffHasVisible | src/App.js:60 | an input passes the blank test exactly when some character of it is not white space |
| Chat.WellFormedHistoryAt | src/App.js:59-69 | in a well-formed transcript each message fits the messages before it |
| Chat.UserMessagesNotBlank | src/App.js:60-63 | no user message in a well-formed transcript is blank |
| Chat.AiMessagesAnswerEarlier | src/App.js:66-68 | every coach message is a canned text, given in reply to an earlier user message |
| Chat.ExchangeKeepsAlternating | src/App.js:59-69 | one full exchange keeps an alternating transcript alternating, and keeps the user and coach counts equal |
| Chat.PendingAskedAppend | src/App.js:59-69 | appending a message keeps every pending question asked |
| Chat.AskKeepsConsistent | src/App.js:60-64 | appending a non-blank user message keeps the invariant, with that input pending and the flag on |
| Chat.AnswerKeepsConsistent | src/App.js:55-68 | appending the reply to a pending input keeps the invariant, with that input no longer pending and the flag off |
| Chat.ChatSession.constructor | src/App.js:7-9 | a new session has an empty transcript, an empty input box and the flag off, and satisfies the invariant |
| Chat.ChatSession.SetInput | src/App.js:298 | typing or clicking a suggestion sets the input box and changes nothing else |
| Chat.ChatSession.BeginSend | src/App.js:38-64 | accepted exactly when the input is not blank; if accepted, the untrimmed input is appended as a user message, the box is cleared and the flag is on; otherwise nothing changes; the flag is not consulted |
| Chat.ChatSession.CompleteResponse | src/App.js:42-68 | the flag is off and exactly one coach message is appended: the reply to the captured input |
| Chat.ChatSession.HandleSendMessage | src/App.js:59-69 | a blank input changes nothing; otherwise the transcript grows by the user message and then the coach's reply to it, in that order, and the session ends idle with an empty box; an alternating transcript stays alternating |
| Chat.MarketingConversation | src/App.js:59-69 | from a fresh session, a non-blank question naming marketing and not business strategy leaves exactly the question followed by the marketing reply |
| Chat.MarketingRevenueQuestion | src/App.js:42-60 | "marketing revenue" is such a question |

## Left out

- Rendering is left out: JSX, charts, stat cards, tabs, analytics and settings are presentation over static sample data.
- Message timestamps (`new Date()`) are left out, because they are a clock reading.
- The length of the 1.5-second delay is left out, because it is a timer. The model keeps only the split it causes between `BeginSend` and `CompleteResponse`.
- The order in which overlapping replies land is not modelled. A second send while a reply is pending is modelled: `BeginSend` accepts it with the flag on. But `CompleteResponse` may then be called for any pending input, so the model lets pending replies land in any order. In the source the two equal 1500 ms timers (`src/App.js:40`) answer in send order. As in the source, the first completion switches the flag off although the other reply is still pending.
- React's batching of state updates and functional `setMessages(prev => …)` updates are not modelled: each update is applied at once to the field it changes.
- Failure of the delay is not modelled, because the simulated promise always resolves.
- Text.ToLower: lower-cases only ASCII A-Z. JavaScript's `toLowerCase` also maps other Unicode letters, which the model keeps unchanged.
- Strings are sequences of characters. UTF-16 surrogate pairs are not modelled.
- The Send button's `disabled={isLoading}` is left out, because it is presentation. The handler itself is modelled without any busy check.
