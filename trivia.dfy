/**
 * The "how well do you know me" trivia game (`get_trivia_question`,
 * `set_trivia_answer`, `submit_trivia_guess`, `get_trivia_scores`). A
 * question is about one of the two partners; only that partner may set the
 * correct answer, only someone else may guess, and only once an answer is
 * set. Every guess is scored: 10 points for a right one, and counters of
 * questions and right guesses per user and pair.
 *
 * As in the handlers, the answer can be set again, a second guess by the
 * same user replaces the first and is scored again, and the match is exact
 * (case-sensitive). The trivia collection is a sequence in insertion order;
 * scores are a map keyed by (user id, pair key). The coin flip, the category
 * pick, the model's reply, the fresh id and the time are parameters.
 */
module Trivia {
  import opened Common
  import opened PairKey
  import opened TriviaReply

  datatype Guess = Guess(answer: string, isCorrect: bool, points: int, guessedAt: int)

  datatype Trivia = Trivia(
    id: string, pairKey: string, question: string, options: seq<string>, category: string,
    about: UserId, aboutName: string, correct: Option<string>, guesses: map<UserId, Guess>)

  /** A `trivia_scores` record. */
  datatype Score = Score(score: int, total: int, correct: int)

  /** `TriviaQuestionResponse` */
  datatype Asked = Asked(id: string, question: string, options: seq<string>, category: string, aboutName: string)

  /** `TriviaResultResponse` */
  datatype Graded = Graded(id: string, question: string, guess: string, correct: string, isCorrect: bool, points: int)

  /** `TriviaScoreResponse` */
  datatype Board = Board(userScore: int, partnerScore: int, total: int, userCorrect: int, partnerCorrect: int)

  const POINTS_FOR_RIGHT_GUESS: int := 10
  const NO_SCORE: Score := Score(0, 0, 0)

  /**
   * The check and the write of `set_trivia_answer` on a found question: only
   * the person the question is about may set the answer, and only to one of
   * the options. An earlier answer is replaced.
   */
  function SetAnswer(t: Trivia, me: UserId, answer: string): (r: Result<Trivia>)
    ensures r == Err(NotTriviaSubject) <==> t.about != me
    ensures r == Err(InvalidOption) <==> t.about == me && answer !in t.options
    ensures r.Ok? <==> t.about == me && answer in t.options
    ensures r.Ok? ==> r.value == t.(correct := Some(answer))
  {
    if t.about != me then Err(NotTriviaSubject)
    else if answer !in t.options then Err(InvalidOption)
    else Ok(t.(correct := Some(answer)))
  }

  /** The last answer set wins. */
  lemma SetAnswerTwice(t: Trivia, me: UserId, a: string, b: string)
    requires SetAnswer(t, me, a).Ok? && b in t.options
    ensures SetAnswer(SetAnswer(t, me, a).value, me, b) == SetAnswer(t, me, b)
  {
  }

  /** `trivia.get("correct_answer")` is truthy: set, and not the empty string. */
  predicate AnswerSet(t: Trivia) {
    t.correct.Some? && t.correct.value != ""
  }

  /**
   * The checks and the grading of `submit_trivia_guess` on a found question:
   * no guessing about oneself, no guessing before the answer is set;
   * otherwise the guess is right exactly when it equals the set answer, earns
   * 10 points or none, and replaces the caller's earlier guess.
   */
  function Grade(t: Trivia, me: UserId, option: string, at: int): (r: Result<(Trivia, Graded)>)
    ensures r == Err(GuessAboutSelf) <==> t.about == me
    ensures r == Err(AnswerNotSet) <==> t.about != me && !AnswerSet(t)
    ensures r.Ok? <==> t.about != me && AnswerSet(t)
    ensures r.Ok? ==>
      var (t2, g) := r.value;
      && (g.isCorrect <==> option == t.correct.value)
      && g.points == (if g.isCorrect then POINTS_FOR_RIGHT_GUESS else 0)
      && g.id == t.id && g.question == t.question
      && g.guess == option && g.correct == t.correct.value
      && t2 == t.(guesses := t.guesses[me := Guess(option, g.isCorrect, g.points, at)])
  {
    if t.about == me then Err(GuessAboutSelf)
    else if !AnswerSet(t) then Err(AnswerNotSet)
    else
      var right := option == t.correct.value;
      var points := if right then POINTS_FOR_RIGHT_GUESS else 0;
      Ok((t.(guesses := t.guesses[me := Guess(option, right, points, at)]),
          Graded(t.id, t.question, option, t.correct.value, right, points)))
  }

  /** The `$inc` with upsert on the guesser's score record. */
  function AddToScore(s: Score, g: Graded): Score {
    Score(s.score + g.points, s.total + 1, s.correct + if g.isCorrect then 1 else 0)
  }

  /** A score record that the increments can produce: ten points per right guess, no more right guesses than guesses. */
  predicate ScoreValid(s: Score) {
    s.score == POINTS_FOR_RIGHT_GUESS * s.correct && 0 <= s.correct <= s.total
  }

  /** Scoring a graded guess keeps a score record valid, and adds one question. */
  lemma AddToScoreValid(t: Trivia, me: UserId, option: string, at: int, s: Score)
    requires ScoreValid(s) && Grade(t, me, option, at).Ok?
    ensures var s2 := AddToScore(s, Grade(t, me, option, at).value.1);
      ScoreValid(s2) && s2.total == s.total + 1 && s2.score >= s.score
  {
  }

  /** Guessing the same right option twice scores twice: 20 points and two questions. */
  lemma RepeatedRightGuessScoresTwice(t: Trivia, me: UserId, at1: int, at2: int, s: Score)
    requires t.about != me && AnswerSet(t)
    ensures var (t1, g1) := Grade(t, me, t.correct.value, at1).value;
      && Grade(t1, me, t.correct.value, at2).Ok?
      && var g2 := Grade(t1, me, t.correct.value, at2).value.1;
      AddToScore(AddToScore(s, g1), g2) == Score(s.score + 20, s.total + 2, s.correct + 2)
  {
  }

  /** The stored collections the trivia handlers use. */
  datatype State = State(trivia: seq<Trivia>, scores: map<(UserId, string), Score>)

  datatype Outcome<+T> = Outcome(state: State, result: Result<T>)

  /** Ids are unique, every question offers four options and a set answer is one of them, score records are valid. */
  predicate Consistent(st: State) {
    && (forall i, j :: 0 <= i < j < |st.trivia| ==> st.trivia[i].id != st.trivia[j].id)
    && (forall i :: 0 <= i < |st.trivia| ==>
          |st.trivia[i].options| == 4 && (st.trivia[i].correct.Some? ==> st.trivia[i].correct.value in st.trivia[i].options))
    && (forall k | k in st.scores :: ScoreValid(st.scores[k]))
  }

  function FindById(ts: seq<Trivia>, id: string): (i: nat)
    ensures i <= |ts|
    ensures i < |ts| ==> ts[i].id == id
    ensures forall j :: 0 <= j < i ==> ts[j].id != id
  {
    if ts == [] then 0 else if ts[0].id == id then 0 else 1 + FindById(ts[1..], id)
  }

  predicate IdUnused(ts: seq<Trivia>, id: string) {
    forall i :: 0 <= i < |ts| ==> ts[i].id != id
  }

  /**
   * `get_trivia_question`: refused to an unpaired user; otherwise a new
   * question about the partner (`aboutPartner`) or the caller, in category
   * number `pick`, with no answer set and no guesses. Its text and options
   * are the parsed reply or, failing that, the category's built-in question.
   */
  function Create(st: State, me: User, aboutPartner: bool, pick: nat, reply: Option<string>, newId: string)
    : (r: Outcome<Asked>)
    requires pick < |TRIVIA_CATEGORIES|
    ensures r.result.Err? <==> !me.Paired()
    ensures r.result.Err? ==> r.result.error == NotPaired && r.state == st
    ensures r.result.Ok? ==>
      && r.state.scores == st.scores
      && |r.state.trivia| == |st.trivia| + 1 && r.state.trivia[..|st.trivia|] == st.trivia
      && var t := r.state.trivia[|st.trivia|];
      && t.id == newId && t.correct.None? && t.guesses == map[] && |t.options| == 4
      && t.about == (if aboutPartner then me.partner.value.id else me.id)
      && t.pairKey == Key(me.id, me.partner.value.id)
      && t.aboutName == (if aboutPartner then me.partner.value.name else me.name)
      && t.category == TRIVIA_CATEGORIES[pick]
      && var data := TriviaFor(reply, t.aboutName, t.category);
      && t.question == data.question && t.options == data.options
      && r.result.value == Asked(newId, t.question, t.options, t.category, t.aboutName)
  {
    if !me.Paired() then Outcome(st, Err(NotPaired))
    else
      var partner := me.partner.value;
      var about := if aboutPartner then partner.id else me.id;
      var aboutName := if aboutPartner then partner.name else me.name;
      var category := TRIVIA_CATEGORIES[pick];
      var data := TriviaFor(reply, aboutName, category);
      var t := Trivia(newId, Key(me.id, partner.id), data.question, data.options, category, about, aboutName, None, map[]);
      Outcome(st.(trivia := st.trivia + [t]), Ok(Asked(newId, data.question, data.options, category, aboutName)))
  }

  lemma CreateValid(st: State, me: User, aboutPartner: bool, pick: nat, reply: Option<string>, newId: string)
    requires Consistent(st) && pick < |TRIVIA_CATEGORIES| && IdUnused(st.trivia, newId)
    ensures Consistent(Create(st, me, aboutPartner, pick, reply, newId).state)
  {
    var r := Create(st, me, aboutPartner, pick, reply, newId);
    if r.result.Ok? {
      var t := r.state.trivia[|st.trivia|];
      assert r.state.trivia == st.trivia + [t];
      AppendValid(st, t);
    }
  }

  /** Appending an unanswered question with four options and a fresh id keeps the state consistent. */
  lemma AppendValid(st: State, t: Trivia)
    requires Consistent(st) && IdUnused(st.trivia, t.id) && |t.options| == 4 && t.correct.None?
    ensures Consistent(st.(trivia := st.trivia + [t]))
  {
    var ts := st.trivia + [t];
    forall i, j | 0 <= i < j < |ts|
      ensures ts[i].id != ts[j].id
    {
      if j == |st.trivia| {
        assert ts[i] == st.trivia[i];
      }
    }
  }

  /** `set_trivia_answer`: an unknown id is not found, then the checks of `SetAnswer`. */
  function SetTriviaAnswer(st: State, me: User, id: string, answer: string): (r: Outcome<()>)
    ensures r.result == Err(TriviaNotFound) <==> FindById(st.trivia, id) == |st.trivia|
    ensures r.result.Err? ==> r.state == st
    ensures var i := FindById(st.trivia, id);
      i < |st.trivia| ==>
        && (r.result.Ok? <==> SetAnswer(st.trivia[i], me.id, answer).Ok?)
        && (SetAnswer(st.trivia[i], me.id, answer).Err? ==> r.result == Err(SetAnswer(st.trivia[i], me.id, answer).error))
    ensures r.result.Ok? ==>
      var i := FindById(st.trivia, id);
      i < |st.trivia| && SetAnswer(st.trivia[i], me.id, answer).Ok?
      && r.state == st.(trivia := st.trivia[i := st.trivia[i].(correct := Some(answer))])
  {
    var i := FindById(st.trivia, id);
    if i == |st.trivia| then Outcome(st, Err(TriviaNotFound))
    else
      match SetAnswer(st.trivia[i], me.id, answer)
      case Err(e) => Outcome(st, Err(e))
      case Ok(t) => Outcome(st.(trivia := st.trivia[i := t]), Ok(()))
  }

  lemma SetTriviaAnswerValid(st: State, me: User, id: string, answer: string)
    requires Consistent(st)
    ensures Consistent(SetTriviaAnswer(st, me, id, answer).state)
  {
  }

  /**
   * `submit_trivia_guess`: an unknown id is not found, then the checks of
   * `Grade`; the guess is stored and the guesser's score record for the
   * question's pair is incremented (created when missing).
   */
  function SubmitGuess(st: State, me: User, id: string, option: string, at: int): (r: Outcome<Graded>)
    ensures r.result == Err(TriviaNotFound) <==> FindById(st.trivia, id) == |st.trivia|
    ensures r.result.Err? ==> r.state == st
    ensures var i := FindById(st.trivia, id);
      i < |st.trivia| ==>
        && (r.result.Ok? <==> Grade(st.trivia[i], me.id, option, at).Ok?)
        && (Grade(st.trivia[i], me.id, option, at).Err? ==> r.result == Err(Grade(st.trivia[i], me.id, option, at).error))
    ensures r.result.Ok? ==>
      var i := FindById(st.trivia, id);
      var key := (me.id, st.trivia[i].pairKey);
      && i < |st.trivia| && Grade(st.trivia[i], me.id, option, at).Ok?
      && r.result.value == Grade(st.trivia[i], me.id, option, at).value.1
      && r.state.trivia == st.trivia[i := Grade(st.trivia[i], me.id, option, at).value.0]
      && r.state.scores == st.scores[key := AddToScore(Get(st.scores, key), r.result.value)]
  {
    var i := FindById(st.trivia, id);
    if i == |st.trivia| then Outcome(st, Err(TriviaNotFound))
    else
      match Grade(st.trivia[i], me.id, option, at)
      case Err(e) => Outcome(st, Err(e))
      case Ok((t, g)) =>
        var key := (me.id, t.pairKey);
        Outcome(State(st.trivia[i := t], st.scores[key := AddToScore(Get(st.scores, key), g)]), Ok(g))
  }

  /** A missing score record counts as zeros. */
  function Get(scores: map<(UserId, string), Score>, key: (UserId, string)): (s: Score)
    ensures key !in scores ==> s == NO_SCORE
    ensures key in scores ==> s == scores[key]
  {
    if key in scores then scores[key] else NO_SCORE
  }

  lemma SubmitGuessValid(st: State, me: User, id: string, option: string, at: int)
    requires Consistent(st)
    ensures Consistent(SubmitGuess(st, me, id, option, at).state)
  {
    var r := SubmitGuess(st, me, id, option, at);
    if r.result.Ok? {
      var i := FindById(st.trivia, id);
      var key := (me.id, st.trivia[i].pairKey);
      AddToScoreValid(st.trivia[i], me.id, option, at, Get(st.scores, key));
    }
  }

  /**
   * `get_trivia_scores`: refused to an unpaired user; otherwise both
   * partners' records for their pair, with the question counts added up.
   */
  function Scores(st: State, me: User): (r: Result<Board>)
    ensures r.Err? <==> !me.Paired()
    ensures r.Ok? ==>
      var key := Key(me.id, me.partner.value.id);
      var mine := Get(st.scores, (me.id, key));
      var theirs := Get(st.scores, (me.partner.value.id, key));
      r.value == Board(mine.score, theirs.score, mine.total + theirs.total, mine.correct, theirs.correct)
  {
    if !me.Paired() then Err(NotPaired)
    else
      var partner := me.partner.value.id;
      var key := Key(me.id, partner);
      var mine := Get(st.scores, (me.id, key));
      var theirs := Get(st.scores, (partner, key));
      Ok(Board(mine.score, theirs.score, mine.total + theirs.total, mine.correct, theirs.correct))
  }

  /**
   * On a consistent state, each partner's score is ten points per right
   * guess, and neither has more right guesses than the pair has questions
   * answered.
   */
  lemma ScoresValid(st: State, me: User)
    requires Consistent(st) && me.Paired()
    ensures var b := Scores(st, me).value;
      && b.userScore == POINTS_FOR_RIGHT_GUESS * b.userCorrect
      && b.partnerScore == POINTS_FOR_RIGHT_GUESS * b.partnerCorrect
      && 0 <= b.userCorrect && 0 <= b.partnerCorrect && b.userCorrect + b.partnerCorrect <= b.total
  {
    var key := Key(me.id, me.partner.value.id);
    assert ScoreValid(Get(st.scores, (me.id, key)));
    assert ScoreValid(Get(st.scores, (me.partner.value.id, key)));
  }

  /** The partners of two users see the same pair key, so the board is the same seen from either side, swapped. */
  lemma ScoresSymmetric(st: State, me: User, other: User)
    requires me.Paired() && other.Paired()
    requires other.id == me.partner.value.id && other.partner.value.id == me.id
    ensures var a := Scores(st, me).value; var b := Scores(st, other).value;
      a.userScore == b.partnerScore && a.partnerScore == b.userScore && a.total == b.total
      && a.userCorrect == b.partnerCorrect && a.partnerCorrect == b.userCorrect
  {
    KeySymmetric(me.id, other.id);
  }

  /**
   * The trivia handlers over the stored collections, updated in place.
   * Each method has the effect of the corresponding function above.
   */
  class TriviaStore {
    var trivia: seq<Trivia>
    var scores: map<(UserId, string), Score>

    function Snapshot(): State
      reads this
    {
      State(trivia, scores)
    }

    constructor ()
      ensures Snapshot() == State([], map[]) && Consistent(Snapshot())
    {
      trivia := [];
      scores := map[];
    }

    method HandleCreate(me: User, aboutPartner: bool, pick: nat, reply: Option<string>, newId: string)
      returns (r: Result<Asked>)
      requires Consistent(Snapshot()) && pick < |TRIVIA_CATEGORIES| && IdUnused(trivia, newId)
      modifies this
      ensures Consistent(Snapshot())
      ensures Outcome(Snapshot(), r) == Create(old(Snapshot()), me, aboutPartner, pick, reply, newId)
    {
      CreateValid(Snapshot(), me, aboutPartner, pick, reply, newId);
      if !me.Paired() {
        return Err(NotPaired);
      }
      var partner := me.partner.value;
      var about, aboutName := me.id, me.name;
      if aboutPartner {
        about, aboutName := partner.id, partner.name;
      }
      var category := TRIVIA_CATEGORIES[pick];
      var data := TriviaFor(reply, aboutName, category);
      trivia := trivia + [Trivia(newId, Key(me.id, partner.id), data.question, data.options, category, about, aboutName, None, map[])];
      r := Ok(Asked(newId, data.question, data.options, category, aboutName));
    }

    method HandleSetAnswer(me: User, id: string, answer: string) returns (r: Result<()>)
      requires Consistent(Snapshot())
      modifies this
      ensures Consistent(Snapshot())
      ensures Outcome(Snapshot(), r) == SetTriviaAnswer(old(Snapshot()), me, id, answer)
    {
      SetTriviaAnswerValid(Snapshot(), me, id, answer);
      var i := FindById(trivia, id);
      if i == |trivia| {
        return Err(TriviaNotFound);
      }
      var t := trivia[i];
      if t.about != me.id {
        return Err(NotTriviaSubject);
      }
      if answer !in t.options {
        return Err(InvalidOption);
      }
      trivia := trivia[i := t.(correct := Some(answer))];
      r := Ok(());
    }

    method HandleGuess(me: User, id: string, option: string, at: int) returns (r: Result<Graded>)
      requires Consistent(Snapshot())
      modifies this
      ensures Consistent(Snapshot())
      ensures Outcome(Snapshot(), r) == SubmitGuess(old(Snapshot()), me, id, option, at)
    {
      SubmitGuessValid(Snapshot(), me, id, option, at);
      var i := FindById(trivia, id);
      if i == |trivia| {
        return Err(TriviaNotFound);
      }
      var graded := Grade(trivia[i], me.id, option, at);
      if graded.Err? {
        return Err(graded.error);
      }
      var (t, g) := graded.value;
      trivia := trivia[i := t];
      var key := (me.id, t.pairKey);
      scores := scores[key := AddToScore(Get(scores, key), g)];
      r := Ok(g);
    }
  }
}
