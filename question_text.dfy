/**
 * Choosing the text of the day's question: the category comes from the day
 * of the year; the text is the language model's reply with surrounding quotes
 * removed, or one of three built-in questions of the category when the reply
 * is missing or too short. The model call itself and the random choice among
 * the three built-in questions are parameters.
 */
module QuestionText {
  import opened Common
  import opened Text
  import opened Calendar

  const QUESTION_CATEGORIES: seq<string> :=
    ["emotional", "playful", "gratitude", "dreams", "communication", "spicy", "hypothetical"]

  /** `get_category_for_date`: the category indexed by the day of the year, modulo 7. */
  function CategoryIndex(d: Date): (i: nat)
    requires Valid(d)
    ensures i < |QUESTION_CATEGORIES|
  {
    DayOfYear(d) % |QUESTION_CATEGORIES|
  }

  function CategoryForDate(d: Date): (c: string)
    requires Valid(d)
    ensures c in QUESTION_CATEGORIES
  {
    QUESTION_CATEGORIES[CategoryIndex(d)]
  }

  /** Within a year the categories rotate one step a day, all seven in turn. */
  lemma CategoryRotatesDaily(d: Date)
    requires Valid(d) && NextDay(d).year == d.year
    ensures Valid(NextDay(d))
    ensures CategoryIndex(NextDay(d)) == (CategoryIndex(d) + 1) % |QUESTION_CATEGORIES|
  {
    DayOfYearNextDay(d);
  }

  /** The built-in questions of each category (`get_fallback_question`). */
  const FALLBACK_EMOTIONAL: seq<string> :=
    [ "What's something you've never told me that you've been wanting to share?",
      "When was the last time you felt truly understood by me?",
      "What emotion do you find hardest to express, and why?"]

  const FALLBACK_PLAYFUL: seq<string> :=
    [ "If we could swap lives for a day, what would you do first?",
      "What's the most embarrassing thing you'd be willing to do for a million dollars?",
      "If you could give me any silly superpower, what would it be?"]

  const FALLBACK_GRATITUDE: seq<string> :=
    [ "What's something small I do that makes your day better?",
      "When did you last feel really grateful for our relationship?",
      "What moment together are you most thankful for?"]

  const FALLBACK_DREAMS: seq<string> :=
    [ "If we had unlimited resources, what adventure would you want us to take?",
      "What's a dream you've never shared with anyone?",
      "Where do you see us in 10 years?"]

  const FALLBACK_COMMUNICATION: seq<string> :=
    [ "How can I better support you when you're stressed?",
      "What's something you wish I understood better about you?",
      "How do you prefer to receive apologies?"]

  const FALLBACK_SPICY: seq<string> :=
    [ "What was going through your mind when we first met?",
      "What's your favorite memory of us being spontaneous?",
      "What's something romantic you've always wanted to try together?"]

  const FALLBACK_HYPOTHETICAL: seq<string> :=
    [ "If we could live anywhere in the world for a year, where would you choose?",
      "If you could relive one day from our relationship, which would it be?",
      "If we wrote a book about us, what would the title be?"]

  /** The three built-in questions of the category at `position` in `QUESTION_CATEGORIES`. */
  function FallbackQuestions(position: nat): (qs: seq<string>)
    requires position < |QUESTION_CATEGORIES|
    ensures |qs| == 3
  {
    if position == 0 then FALLBACK_EMOTIONAL
    else if position == 1 then FALLBACK_PLAYFUL
    else if position == 2 then FALLBACK_GRATITUDE
    else if position == 3 then FALLBACK_DREAMS
    else if position == 4 then FALLBACK_COMMUNICATION
    else if position == 5 then FALLBACK_SPICY
    else FALLBACK_HYPOTHETICAL
  }

  /** Position of `category` in `QUESTION_CATEGORIES`; an unknown category counts as "emotional" (position 0). */
  function CategoryPosition(category: string): (i: nat)
    ensures i < |QUESTION_CATEGORIES|
    ensures category in QUESTION_CATEGORIES ==> QUESTION_CATEGORIES[i] == category
    ensures category !in QUESTION_CATEGORIES ==> i == 0
  {
    IndexOrFirst(category, QUESTION_CATEGORIES)
  }

  /** The question `random.choice` picks (choice `pick`) when the reply is unusable. */
  function FallbackQuestion(category: string, pick: nat): (q: string)
    requires pick < 3
  {
    FallbackQuestions(CategoryPosition(category))[pick]
  }

  /** `response.strip('"').strip("'")` */
  function Unquote(s: string): string {
    StripChar(StripChar(s, '"'), '\'')
  }

  /**
   * `generate_question_with_gemini` after the model call: `reply` is what
   * the call returned (None when it failed), `pick` the random choice.
   */
  function QuestionFromReply(reply: Option<string>, category: string, pick: nat): (text: string)
    requires pick < 3
    ensures reply.Some? && |reply.value| > 10 ==>
      |text| <= |reply.value| && (text == [] || (text[0] != '\'' && text[|text| - 1] != '\''))
    ensures !(reply.Some? && |reply.value| > 10) ==> text in FallbackQuestions(CategoryPosition(category))
  {
    if reply.Some? && |reply.value| > 10 then Unquote(reply.value)
    else FallbackQuestion(category, pick)
  }

  /** A reply that does not start or end with a quote character is used word for word. */
  lemma UnquotedReplyKept(reply: string, category: string, pick: nat)
    requires pick < 3 && |reply| > 10
    requires reply[0] !in {'"', '\''} && reply[|reply| - 1] !in {'"', '\''}
    ensures QuestionFromReply(Some(reply), category, pick) == reply
  {
    assert TrimStart(reply, x => x == '"') == reply;
    assert TrimEnd(reply, x => x == '"') == reply;
    assert TrimStart(reply, x => x == '\'') == reply;
    assert TrimEnd(reply, x => x == '\'') == reply;
  }
}
