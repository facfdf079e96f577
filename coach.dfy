/** The reply table of the chat panel's simulated coach: four keywords in the
    insertion order of the `responses` object literal, and a fallback. */
module Coach {
  import opened Text
  import opened Responder

  /** The five canned answers the coach can give. */
  datatype Canned = BusinessStrategy | Marketing | Leadership | Revenue | Fallback

  /** The exact text of each canned answer. */
  function CannedText(c: Canned): string
  {
    match c
    case BusinessStrategy =>
      "Based on my " + ("experience scaling " + "companies, I " + "recommend focusing " +
      "on these three " + "pillars: 1) Clear " + "value proposition, " +
      "2) Strong customer " + "feedback loop, 3) " + "Scalable " + "operations. Let me " +
      "break each down for " + "you...")
    case Marketing =>
      "Effective marketing " + ("starts with " + "understanding your " + "ideal customer " +
      "deeply. I've found " + "that the 80/20 rule " + "applies here - 80% " +
      "of your results " + "come from 20% of " + "your channels. " + "Focus on mastering " +
      "one channel first...")
    case Leadership =>
      "Great leadership " + ("isn't about having " + "all the answers - " +
      "it's about asking " + "the right questions " + "and empowering your " +
      "team. In my " + "coaching practice, " + "I've seen that " + "vulnerability and " +
      "authenticity create " + "stronger teams...")
    case Revenue =>
      "To increase " + ("revenue, look at " + "these levers: 1) " + "Increase customer " +
      "lifetime value, 2) " + "Reduce churn, 3) " + "Optimize pricing " +
      "strategy. From my " + "consulting work, " + "I've seen 30-40% " +
      "revenue increases " + "just from pricing " + "optimization...")
    case Fallback =>
      "That's an " + ("interesting " + "question! Based on " + "my experience, I'd " +
      "approach this by " + "first understanding " + "the core challenge " +
      "you're facing. " + "Could you provide " + "more context so I " +
      "can give you a more " + "targeted response?")
  }

  /** How the five texts begin. */
  lemma CannedTextOpenings()
    ensures CannedText(BusinessStrategy)[0] == 'B'
    ensures CannedText(Marketing)[0] == 'E'
    ensures CannedText(Leadership)[0] == 'G'
    ensures CannedText(Revenue)[0] == CannedText(Fallback)[0] == 'T'
  {
  }

  /** The two texts that begin with 'T' differ in their second character. */
  lemma CannedTextSecondChars()
    ensures CannedText(Revenue)[1] == 'o'
    ensures CannedText(Fallback)[1] == 'h'
  {
  }

  /** The five texts are pairwise different, since they begin differently. */
  lemma CannedTextsDistinct()
    ensures CannedText(BusinessStrategy) != CannedText(Marketing)
    ensures CannedText(BusinessStrategy) != CannedText(Leadership)
    ensures CannedText(BusinessStrategy) != CannedText(Revenue)
    ensures CannedText(BusinessStrategy) != CannedText(Fallback)
    ensures CannedText(Marketing) != CannedText(Leadership)
    ensures CannedText(Marketing) != CannedText(Revenue)
    ensures CannedText(Marketing) != CannedText(Fallback)
    ensures CannedText(Leadership) != CannedText(Revenue)
    ensures CannedText(Leadership) != CannedText(Fallback)
    ensures CannedText(Revenue) != CannedText(Fallback)
  {
    CannedTextOpenings();
    CannedTextSecondChars();
  }

  /** So a reply text tells which canned answer was given. */
  lemma CannedTextInjective(a: Canned, b: Canned)
    ensures CannedText(a) == CannedText(b) ==> a == b
  {
    CannedTextsDistinct();
  }

  /** The keyword table, in the order `Object.keys` yields it. */
  const Responses: seq<Rule<Canned>> := [
    Rule("business strategy", BusinessStrategy),
    Rule("marketing", Marketing),
    Rule("leadership", Leadership),
    Rule("revenue", Revenue)
  ]

  /** Which canned answer the coach gives to `message`. */
  function CoachAnswer(message: string): Canned
  {
    Select(Responses, Fallback, message)
  }

  /** The text the coach replies with, as `simulateAIResponse` returns it. */
  function CoachReply(message: string): string
  {
    CannedText(CoachAnswer(message))
  }

  /** The reply is always one of the five canned texts, and it is the fallback
      text exactly when the answer is the fallback. */
  lemma CoachReplyIsCanned(message: string)
    ensures exists c :: CoachReply(message) == CannedText(c)
    ensures CoachReply(message) == CannedText(Fallback) <==> CoachAnswer(message) == Fallback
  {
    CannedTextInjective(CoachAnswer(message), Fallback);
  }

  /** The table satisfies WellFormed: keys distinct and non-empty, answers distinct. */
  lemma ResponsesWellFormed()
    ensures WellFormed(Responses, Fallback)
  {
  }

  /** The coach gives rule `k`'s answer exactly when its key occurs in the
      lower-cased message and no key earlier in the table does. */
  lemma CoachAnswerIsFirstMatch(message: string, k: nat)
    requires k < |Responses|
    ensures CoachAnswer(message) == Responses[k].reply <==>
            Contains(ToLower(message), Responses[k].key) &&
            forall j :: 0 <= j < k ==> !Contains(ToLower(message), Responses[j].key)
  {
    ResponsesWellFormed();
    SelectIsFirstMatch(Responses, Fallback, message, k);
  }

  /** The same, stated on the reply text the user sees. */
  lemma CoachReplyIsFirstMatch(message: string, k: nat)
    requires k < |Responses|
    ensures CoachReply(message) == CannedText(Responses[k].reply) <==>
            Contains(ToLower(message), Responses[k].key) &&
            forall j :: 0 <= j < k ==> !Contains(ToLower(message), Responses[j].key)
  {
    CannedTextInjective(CoachAnswer(message), Responses[k].reply);
    CoachAnswerIsFirstMatch(message, k);
  }

  /** The coach falls back exactly when none of the four keys occurs in the
      lower-cased message. */
  lemma CoachFallbackIff(message: string)
    ensures CoachAnswer(message) == Fallback <==>
            forall j :: 0 <= j < |Responses| ==> !Contains(ToLower(message), Responses[j].key)
  {
    ResponsesWellFormed();
    SelectFallbackIff(Responses, Fallback, message);
  }

  /** The coach ignores case. */
  lemma CoachIgnoresCase(message: string)
    ensures CoachReply(ToLower(message)) == CoachReply(message)
  {
    SelectIgnoresCase(Responses, Fallback, message);
  }

  /** "marketing" comes before "revenue": a message naming marketing (and not
      business strategy) gets the marketing answer, whether or not it also
      names revenue. */
  lemma MarketingBeforeRevenue(message: string)
    requires Contains(ToLower(message), "marketing")
    requires !Contains(ToLower(message), "business strategy")
    ensures CoachAnswer(message) == Marketing
  {
    CoachAnswerIsFirstMatch(message, 1);
  }

  /** A message naming revenue and none of the three earlier keys gets the
      revenue answer. */
  lemma RevenueWhenOnlyRevenue(message: string)
    requires Contains(ToLower(message), "revenue")
    requires !Contains(ToLower(message), "business strategy")
    requires !Contains(ToLower(message), "marketing")
    requires !Contains(ToLower(message), "leadership")
    ensures CoachAnswer(message) == Revenue
  {
    CoachAnswerIsFirstMatch(message, 3);
  }

  /** A message naming none of the four keys gets the fallback. */
  lemma FallbackWhenNoKey(message: string)
    requires !Contains(ToLower(message), "business strategy")
    requires !Contains(ToLower(message), "marketing")
    requires !Contains(ToLower(message), "leadership")
    requires !Contains(ToLower(message), "revenue")
    ensures CoachAnswer(message) == Fallback
  {
    CoachFallbackIff(message);
  }

  // The examples below take the message as a parameter fixed by a
  // `requires`, rather than as a string literal in the `ensures`: on a
  // literal argument Dafny unfolds ToLower and the substring search
  // character by character, which is far too costly for the solver. For
  // the same reason each fact about a literal (that it is already lower
  // case, where a key occurs, which letters it lacks) is a lemma of its own,
  // and the examples combine those facts with the general lemmas above.

  /** A message naming both marketing and revenue gets the marketing answer. */
  lemma MarketingAndRevenueExample(text: string)
    requires text == "marketing revenue"
    ensures CoachAnswer(text) == Marketing
  {
    MarketingAndRevenueIsLower(text);
    MarketingAndRevenueKeys(text);
    MarketingBeforeRevenue(text);
  }

  lemma MarketingAndRevenueIsLower(text: string)
    requires text == "marketing revenue"
    ensures ToLower(text) == text
  {
    LowerIsFixed(text);
  }

  lemma MarketingAndRevenueKeys(text: string)
    requires text == "marketing revenue"
    ensures Contains(text, "marketing") && Contains(text, "revenue")
    ensures !Contains(text, "business strategy")
  {
    assert OccursAt(text, "marketing", 0);
    assert OccursAt(text, "revenue", 10);
    AbsentChar(text, "business strategy", 0);
  }

  /** Matching is raw substring containment: "revenues" gets the revenue answer. */
  lemma RevenuesExample(text: string)
    requires text == "revenues"
    ensures CoachAnswer(text) == Revenue
  {
    RevenuesIsLower(text);
    RevenuesKeys(text);
    RevenueWhenOnlyRevenue(text);
  }

  lemma RevenuesIsLower(text: string)
    requires text == "revenues"
    ensures ToLower(text) == text
  {
    LowerIsFixed(text);
  }

  lemma RevenuesKeys(text: string)
    requires text == "revenues"
    ensures Contains(text, "revenue")
    ensures !Contains(text, "business strategy") && !Contains(text, "marketing")
    ensures !Contains(text, "leadership")
  {
    assert OccursAt(text, "revenue", 0);
    TooLongAbsent(text, "business strategy");
    TooLongAbsent(text, "marketing");
    TooLongAbsent(text, "leadership");
  }

  /** A question about the weather names no key and gets the fallback. */
  lemma WeatherExample(text: string)
    requires text == "what's the weather?"
    ensures CoachAnswer(text) == Fallback
  {
    WeatherIsLower(text);
    WeatherKeys(text);
    FallbackWhenNoKey(text);
  }

  lemma WeatherIsLower(text: string)
    requires text == "what's the weather?"
    ensures ToLower(text) == text
  {
    LowerIsFixed(text);
  }

  lemma WeatherKeys(text: string)
    requires text == "what's the weather?"
    ensures !Contains(text, "business strategy") && !Contains(text, "marketing")
    ensures !Contains(text, "leadership") && !Contains(text, "revenue")
  {
    AbsentChar(text, "business strategy", 0);
    AbsentChar(text, "marketing", 0);
    AbsentChar(text, "leadership", 0);
    AbsentChar(text, "revenue", 2);
  }

  /** A message in which some letter of each key occurs in neither case gets
      the fallback; `b`, `m`, `l` and `r` pick the letter of each key. */
  lemma FallbackWhenLettersAbsent(message: string, b: nat, m: nat, l: nat, r: nat)
    requires b < 17 && LetterAbsent(message, "business strategy"[b])
    requires m < 9 && LetterAbsent(message, "marketing"[m])
    requires l < 10 && LetterAbsent(message, "leadership"[l])
    requires r < 7 && LetterAbsent(message, "revenue"[r])
    ensures CoachAnswer(message) == Fallback
  {
    AbsentLowerChar(message, "business strategy", b);
    AbsentLowerChar(message, "marketing", m);
    AbsentLowerChar(message, "leadership", l);
    AbsentLowerChar(message, "revenue", r);
    FallbackWhenNoKey(message);
  }

  /** The four suggested questions of the empty chat panel. Only the
      marketing and revenue ones name their key; "How do I scale my
      business?" and "How can I be a better leader?" name no key and get the
      fallback. */
  lemma ScaleBusinessQuestion(text: string)
    requires text == "How do I scale my business?"
    ensures CoachAnswer(text) == Fallback
  {
    ScaleBusinessLetters(text);
    FallbackWhenLettersAbsent(text, 11, 2, 5, 0);
  }

  lemma ScaleBusinessLetters(text: string)
    requires text == "How do I scale my business?"
    ensures LetterAbsent(text, 'r')
  {
  }

  lemma BestMarketingQuestion(text: string)
    requires text == "What's the best marketing approach?"
    ensures CoachAnswer(text) == Marketing
  {
    BestMarketingLetters(text);
    ContainsLower(text, "marketing", 16);
    AbsentLowerChar(text, "business strategy", 16);
    MarketingBeforeRevenue(text);
  }

  lemma BestMarketingLetters(text: string)
    requires text == "What's the best marketing approach?"
    ensures OccursAt(text, "marketing", 16)
    ensures LetterAbsent(text, 'y')
  {
  }

  lemma BetterLeaderQuestion(text: string)
    requires text == "How can I be a better leader?"
    ensures CoachAnswer(text) == Fallback
  {
    BetterLeaderHasNoS(text);
    BetterLeaderHasNoG(text);
    BetterLeaderHasNoV(text);
    FallbackWithoutSGV(text);
  }

  /** No s, g or v in either case: no key can occur. */
  lemma FallbackWithoutSGV(message: string)
    requires LetterAbsent(message, 's') && LetterAbsent(message, 'g') && LetterAbsent(message, 'v')
    ensures CoachAnswer(message) == Fallback
  {
    FallbackWhenLettersAbsent(message, 2, 8, 6, 2);
  }

  lemma BetterLeaderHasNoS(text: string)
    requires text == "How can I be a better leader?"
    ensures LetterAbsent(text, 's')
  {
  }

  lemma BetterLeaderHasNoG(text: string)
    requires text == "How can I be a better leader?"
    ensures LetterAbsent(text, 'g')
  {
  }

  lemma BetterLeaderHasNoV(text: string)
    requires text == "How can I be a better leader?"
    ensures LetterAbsent(text, 'v')
  {
  }

  lemma IncreaseRevenueQuestion(text: string)
    requires text == "How to increase revenue?"
    ensures CoachAnswer(text) == Revenue
  {
    IncreaseRevenueOccurrence(text);
    IncreaseRevenueLetters(text);
    RevenueWithoutGL(text, 16);
  }

  /** "revenue" occurs and there is no g or l in either case: only the
      revenue key can occur. */
  lemma RevenueWithoutGL(message: string, i: nat)
    requires OccursAt(message, "revenue", i)
    requires LetterAbsent(message, 'g') && LetterAbsent(message, 'l')
    ensures CoachAnswer(message) == Revenue
  {
    ContainsLower(message, "revenue", i);
    AbsentLowerChar(message, "business strategy", 15);
    AbsentLowerChar(message, "marketing", 8);
    AbsentLowerChar(message, "leadership", 0);
    RevenueWhenOnlyRevenue(message);
  }

  lemma IncreaseRevenueOccurrence(text: string)
    requires text == "How to increase revenue?"
    ensures OccursAt(text, "revenue", 16)
  {
  }

  lemma IncreaseRevenueLetters(text: string)
    requires text == "How to increase revenue?"
    ensures LetterAbsent(text, 'g') && LetterAbsent(text, 'l')
  {
  }
}
