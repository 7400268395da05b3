/**
 * The daily question of a couple (`get_today_question`, `submit_answer`,
 * `add_reaction`, `get_question_history`). One question is created per pair
 * and day; each partner answers it once; the partner's answer and reaction
 * stay hidden from a user until both have answered. When the second answer
 * arrives, both partners' streaks advance to the question's date.
 *
 * The questions collection is a sequence in insertion order, so `find_one`
 * returns the first match; the streaks collection is a map keyed by user id.
 * The current date and time, the fresh question id, the model's reply and
 * the random pick among built-in questions are parameters.
 */
module Questions {
  import opened Common
  import opened Calendar
  import opened PairKey
  import opened QuestionText
  import opened Streaks

  datatype Answer = Answer(text: string, answeredAt: int)

  datatype Question = Question(
    id: string, text: string, category: string, date: Date, pairKey: string,
    answers: map<UserId, Answer>, reactions: map<UserId, string>)

  /** `QuestionResponse`: one user's view of a question. */
  datatype View = View(
    id: string, text: string, category: string, date: Date,
    userAnswer: Option<string>, userAnsweredAt: Option<int>,
    partnerAnswer: Option<string>, partnerAnsweredAt: Option<int>,
    bothAnswered: bool,
    userReaction: Option<string>, partnerReaction: Option<string>)

  const VALID_REACTIONS: seq<string> := ["heart", "laugh", "surprised", "cry", "fire"]
  const MAX_ANSWER_LENGTH: int := 500

  /** `d.get(k)` */
  function Get<V>(m: map<UserId, V>, k: UserId): (r: Option<V>)
    ensures r.Some? <==> k in m
    ensures r.Some? ==> r.value == m[k]
  {
    if k in m then Some(m[k]) else None
  }

  /**
   * The response built from a stored question for `me`, whose partner is
   * `partner`: my own answer and reaction always; my partner's answer, its
   * time and their reaction only when both of us have answered.
   */
  function Project(q: Question, me: UserId, partner: UserId): View {
    var both := me in q.answers && partner in q.answers;
    View(q.id, q.text, q.category, q.date,
      if me in q.answers then Some(q.answers[me].text) else None,
      if me in q.answers then Some(q.answers[me].answeredAt) else None,
      if both then Some(q.answers[partner].text) else None,
      if both then Some(q.answers[partner].answeredAt) else None,
      both,
      Get(q.reactions, me),
      if both then Get(q.reactions, partner) else None)
  }

  /** What the view reveals: the partner's answer exactly when both have answered, and the caller's own data always. */
  lemma ProjectReveals(q: Question, me: UserId, partner: UserId)
    ensures var v := Project(q, me, partner);
      && (v.bothAnswered <==> me in q.answers && partner in q.answers)
      && (v.partnerAnswer.Some? <==> v.bothAnswered)
      && (v.partnerAnsweredAt.Some? <==> v.bothAnswered)
      && (v.bothAnswered ==> v.partnerAnswer == Some(q.answers[partner].text))
      && (!v.bothAnswered ==> v.partnerReaction.None?)
      && (v.userAnswer.Some? <==> me in q.answers)
      && (me in q.answers ==> v.userAnswer == Some(q.answers[me].text))
      && (v.userReaction.Some? <==> me in q.reactions)
  {
  }

  /**
   * Until I have answered, nothing my partner writes (their answer or their
   * reaction) changes what I see.
   */
  lemma HiddenUntilAnswered(q: Question, me: UserId, partner: UserId, a: Answer, reaction: string)
    requires me != partner && me !in q.answers
    ensures Project(q, me, partner)
         == Project(q.(answers := q.answers[partner := a], reactions := q.reactions[partner := reaction]), me, partner)
  {
    var q2 := q.(answers := q.answers[partner := a], reactions := q.reactions[partner := reaction]);
    assert me !in q2.answers;
    assert Get(q2.reactions, me) == Get(q.reactions, me);
  }

  /**
   * The checks and the write of `submit_answer` on a found question: an
   * answer over 500 characters or a second answer by the same user is
   * refused; otherwise the caller's answer is stored and nothing else changes.
   */
  function RecordAnswer(q: Question, me: UserId, text: string, at: int): (r: Result<Question>)
    ensures r == Err(AnswerTooLong) <==> |text| > MAX_ANSWER_LENGTH
    ensures r == Err(AlreadyAnswered) <==> |text| <= MAX_ANSWER_LENGTH && me in q.answers
    ensures r.Ok? <==> |text| <= MAX_ANSWER_LENGTH && me !in q.answers
    ensures r.Ok? ==>
      && r.value.answers.Keys == q.answers.Keys + {me}
      && r.value.answers[me] == Answer(text, at)
      && (forall u | u in q.answers :: r.value.answers[u] == q.answers[u])
      && r.value == q.(answers := r.value.answers)
  {
    if |text| > MAX_ANSWER_LENGTH then Err(AnswerTooLong)
    else if me in q.answers then Err(AlreadyAnswered)
    else Ok(q.(answers := q.answers[me := Answer(text, at)]))
  }

  /** The order in which the two partners answer does not matter. */
  lemma AnswersCommute(q: Question, u: UserId, tu: string, au: int, w: UserId, tw: string, aw: int)
    requires u != w && RecordAnswer(q, u, tu, au).Ok? && RecordAnswer(q, w, tw, aw).Ok?
    ensures RecordAnswer(RecordAnswer(q, u, tu, au).value, w, tw, aw).Ok?
    ensures RecordAnswer(RecordAnswer(q, w, tw, aw).value, u, tu, au).Ok?
    ensures RecordAnswer(RecordAnswer(q, u, tu, au).value, w, tw, aw).value
         == RecordAnswer(RecordAnswer(q, w, tw, aw).value, u, tu, au).value
  {
    var uw := RecordAnswer(RecordAnswer(q, u, tu, au).value, w, tw, aw).value;
    var wu := RecordAnswer(RecordAnswer(q, w, tw, aw).value, u, tu, au).value;
    assert uw.answers == wu.answers;
  }

  /** Once both have answered, each sees the other's answer. */
  lemma BothAnsweredRevealed(q: Question, u: UserId, tu: string, au: int, w: UserId, tw: string, aw: int)
    requires u != w && u !in q.answers && w !in q.answers
    requires |tu| <= MAX_ANSWER_LENGTH && |tw| <= MAX_ANSWER_LENGTH
    ensures RecordAnswer(q, u, tu, au).Ok?
    ensures RecordAnswer(RecordAnswer(q, u, tu, au).value, w, tw, aw).Ok?
    ensures var q2 := RecordAnswer(RecordAnswer(q, u, tu, au).value, w, tw, aw).value;
      && Project(q2, u, w).partnerAnswer == Some(tw)
      && Project(q2, w, u).partnerAnswer == Some(tu)
      && Project(q2, u, w).userAnswer == Some(tu)
  {
  }

  /** The stored collections the question handlers use. */
  datatype State = State(questions: seq<Question>, streaks: map<UserId, Streak>)

  /** The new state, and the response or the rejection. */
  datatype Outcome<+T> = Outcome(state: State, result: Result<T>)

  /** Ids are unique, there is at most one question per pair and day, and dates are real dates. */
  predicate QuestionsConsistent(qs: seq<Question>) {
    && (forall i, j :: 0 <= i < j < |qs| ==>
          qs[i].id != qs[j].id && (qs[i].pairKey != qs[j].pairKey || qs[i].date != qs[j].date))
    && (forall i :: 0 <= i < |qs| ==> Calendar.Valid(qs[i].date))
  }

  /** Every stored streak record is valid. */
  predicate StreaksConsistent(streaks: map<UserId, Streak>) {
    forall u | u in streaks :: StreakValid(streaks[u])
  }

  predicate Consistent(st: State) {
    QuestionsConsistent(st.questions) && StreaksConsistent(st.streaks)
  }

  /** `find_one({"id": id})` */
  function FindById(qs: seq<Question>, id: string): (i: nat)
    ensures i <= |qs|
    ensures i < |qs| ==> qs[i].id == id
    ensures forall j :: 0 <= j < i ==> qs[j].id != id
  {
    if qs == [] then 0 else if qs[0].id == id then 0 else 1 + FindById(qs[1..], id)
  }

  /** `find_one({"date": date, "pair_key": key})` */
  function FindDay(qs: seq<Question>, key: string, date: Date): (i: nat)
    ensures i <= |qs|
    ensures i < |qs| ==> qs[i].pairKey == key && qs[i].date == date
    ensures forall j :: 0 <= j < i ==> qs[j].pairKey != key || qs[j].date != date
  {
    if qs == [] then 0
    else if qs[0].pairKey == key && qs[0].date == date then 0
    else 1 + FindDay(qs[1..], key, date)
  }

  predicate IdUnused(qs: seq<Question>, id: string) {
    forall i :: 0 <= i < |qs| ==> qs[i].id != id
  }

  /**
   * `get_today_question`: refused to an unpaired user; otherwise the pair's
   * question of `today`, created first (with id `newId` and the text chosen
   * from `reply` and `pick`) when there is none.
   */
  function GetToday(st: State, me: User, today: Date, newId: string, reply: Option<string>, pick: nat): (r: Outcome<View>)
    requires Calendar.Valid(today) && pick < 3
    ensures r.result.Err? <==> !me.Paired()
    ensures r.result.Err? ==> r.result.error == NotPaired && r.state == st
    ensures r.result.Ok? ==> r.state.streaks == st.streaks && r.result.value.date == today
    ensures r.result.Ok? ==>
      var partner := me.partner.value.id;
      var key := Key(me.id, partner);
      var i := FindDay(st.questions, key, today);
      && (i < |st.questions| ==> r.state == st && r.result.value == Project(st.questions[i], me.id, partner))
      && (i == |st.questions| ==>
            var category := CategoryForDate(today);
            var q := Question(newId, QuestionFromReply(reply, category, pick), category, today, key, map[], map[]);
            r.state.questions == st.questions + [q] && r.result.value == Project(q, me.id, partner))
  {
    if !me.Paired() then Outcome(st, Err(NotPaired))
    else
      var partner := me.partner.value.id;
      var key := Key(me.id, partner);
      var i := FindDay(st.questions, key, today);
      if i < |st.questions| then Outcome(st, Ok(Project(st.questions[i], me.id, partner)))
      else
        var category := CategoryForDate(today);
        var q := Question(newId, QuestionFromReply(reply, category, pick), category, today, key, map[], map[]);
        Outcome(st.(questions := st.questions + [q]), Ok(Project(q, me.id, partner)))
  }

  /** Creating the day's question keeps ids and (pair, day) unique. */
  lemma GetTodayValid(st: State, me: User, today: Date, newId: string, reply: Option<string>, pick: nat)
    requires Consistent(st) && Calendar.Valid(today) && pick < 3 && IdUnused(st.questions, newId)
    ensures Consistent(GetToday(st, me, today, newId, reply, pick).state)
  {
    if me.Paired() {
      var key := Key(me.id, me.partner.value.id);
      if FindDay(st.questions, key, today) == |st.questions| {
        var category := CategoryForDate(today);
        AppendValid(st, Question(newId, QuestionFromReply(reply, category, pick), category, today, key, map[], map[]));
      }
    }
  }

  /** Appending a question with a fresh id, for a pair and day that have none, keeps the state consistent. */
  lemma AppendValid(st: State, q: Question)
    requires Consistent(st) && IdUnused(st.questions, q.id) && Calendar.Valid(q.date)
    requires FindDay(st.questions, q.pairKey, q.date) == |st.questions|
    ensures Consistent(st.(questions := st.questions + [q]))
  {
    var qs := st.questions + [q];
    forall i, j | 0 <= i < j < |qs|
      ensures qs[i].id != qs[j].id && (qs[i].pairKey != qs[j].pairKey || qs[i].date != qs[j].date)
    {
      if j == |st.questions| {
        assert qs[i] == st.questions[i];
      }
    }
  }

  /**
   * Asking again on the same day returns the same question and changes
   * nothing, whatever id, reply and pick the second call would have used.
   */
  lemma GetTodayIdempotent(st: State, me: User, today: Date, id1: string, reply1: Option<string>, pick1: nat,
                           id2: string, reply2: Option<string>, pick2: nat)
    requires Calendar.Valid(today) && pick1 < 3 && pick2 < 3
    ensures var first := GetToday(st, me, today, id1, reply1, pick1);
      var second := GetToday(first.state, me, today, id2, reply2, pick2);
      second.state == first.state && second.result == first.result
  {
    var first := GetToday(st, me, today, id1, reply1, pick1);
    if me.Paired() {
      var key := Key(me.id, me.partner.value.id);
      var i := FindDay(st.questions, key, today);
      if i == |st.questions| {
        assert FindDay(first.state.questions, key, today) == i by {
          FindDayAppended(st.questions, first.state.questions[i], key, today);
        }
      }
    }
  }

  lemma {:induction false} FindDayAppended(qs: seq<Question>, q: Question, key: string, date: Date)
    requires FindDay(qs, key, date) == |qs| && q.pairKey == key && q.date == date
    ensures FindDay(qs + [q], key, date) == |qs|
    decreases |qs|
  {
    if qs != [] {
      assert (qs + [q])[1..] == qs[1..] + [q];
      FindDayAppended(qs[1..], q, key, date);
    }
  }

  /** One partner's streak advanced to `d`, starting from a fresh record when none is stored. */
  function BumpStreak(streaks: map<UserId, Streak>, u: UserId, d: Date): map<UserId, Streak>
    requires Calendar.Valid(d) && (u in streaks ==> DatesValid(streaks[u]))
  {
    streaks[u := Advance(GetStreak(Get(streaks, u)), d)]
  }

  /**
   * `submit_answer`: refused to an unpaired user, for an answer over 500
   * characters, for an unknown question and for a second answer; otherwise
   * the answer is stored, and if the partner has answered too, the caller's
   * streak and then the partner's advance to the question's date.
   */
  function SubmitAnswer(st: State, me: User, qid: string, text: string, at: int): (r: Outcome<View>)
    requires Consistent(st)
    ensures r.result.Err? ==> r.state == st
    ensures r.result == Err(NotPaired) <==> !me.Paired()
    ensures r.result == Err(AnswerTooLong) <==> me.Paired() && |text| > MAX_ANSWER_LENGTH
    ensures r.result == Err(QuestionNotFound) <==>
      me.Paired() && |text| <= MAX_ANSWER_LENGTH && FindById(st.questions, qid) == |st.questions|
    ensures var i := FindById(st.questions, qid);
      r.result == Err(AlreadyAnswered) <==>
        me.Paired() && |text| <= MAX_ANSWER_LENGTH && i < |st.questions| && me.id in st.questions[i].answers
    ensures var i := FindById(st.questions, qid);
      r.result.Ok? <==>
        me.Paired() && |text| <= MAX_ANSWER_LENGTH && i < |st.questions| && me.id !in st.questions[i].answers
    ensures r.result.Ok? ==>
      var i := FindById(st.questions, qid);
      && i < |st.questions| && me.id !in st.questions[i].answers
      && |r.state.questions| == |st.questions|
      && r.state.questions[i] == st.questions[i].(answers := st.questions[i].answers[me.id := Answer(text, at)])
      && (forall j :: 0 <= j < |st.questions| && j != i ==> r.state.questions[j] == st.questions[j])
      && var partner := me.partner.value.id;
      && r.result.value == Project(r.state.questions[i], me.id, partner)
      && r.state.streaks ==
           if partner in st.questions[i].answers || partner == me.id
           then BumpStreak(BumpStreak(st.streaks, me.id, st.questions[i].date), partner, st.questions[i].date)
           else st.streaks
  {
    if !me.Paired() then Outcome(st, Err(NotPaired))
    else if |text| > MAX_ANSWER_LENGTH then Outcome(st, Err(AnswerTooLong))
    else
      var i := FindById(st.questions, qid);
      if i == |st.questions| then Outcome(st, Err(QuestionNotFound))
      else
        match RecordAnswer(st.questions[i], me.id, text, at)
        case Err(e) => Outcome(st, Err(e))
        case Ok(q) =>
          var partner := me.partner.value.id;
          var streaks :=
            if partner in q.answers then
              BumpStreak(BumpStreak(st.streaks, me.id, q.date), partner, q.date)
            else st.streaks;
          Outcome(State(st.questions[i := q], streaks), Ok(Project(q, me.id, partner)))
  }

  /** Advancing one partner's streak keeps every stored streak record valid. */
  lemma BumpStreakValid(streaks: map<UserId, Streak>, u: UserId, d: Date)
    requires Calendar.Valid(d) && (u in streaks ==> DatesValid(streaks[u]))
    requires StreaksConsistent(streaks)
    ensures StreaksConsistent(BumpStreak(streaks, u, d))
  {
    FreshValid();
    AdvanceValid(GetStreak(Get(streaks, u)), d);
  }

  /** Rewriting one question without touching its id, pair or date keeps the questions consistent. */
  lemma RewriteKeepsConsistent(qs: seq<Question>, i: nat, q: Question)
    requires QuestionsConsistent(qs) && i < |qs|
    requires q.id == qs[i].id && q.pairKey == qs[i].pairKey && q.date == qs[i].date
    ensures QuestionsConsistent(qs[i := q])
  {
    var qs2 := qs[i := q];
    assert forall k :: 0 <= k < |qs2| ==>
      qs2[k].date == qs[k].date && qs2[k].id == qs[k].id && qs2[k].pairKey == qs[k].pairKey;
  }

  /** Submitting keeps the state consistent. */
  lemma SubmitAnswerValid(st: State, me: User, qid: string, text: string, at: int)
    requires Consistent(st)
    ensures Consistent(SubmitAnswer(st, me, qid, text, at).state)
  {
    if SubmitAnswer(st, me, qid, text, at).result.Ok? {
      var i := FindById(st.questions, qid);
      var q := st.questions[i].(answers := st.questions[i].answers[me.id := Answer(text, at)]);
      var partner := me.partner.value.id;
      RewriteKeepsConsistent(st.questions, i, q);
      if partner in q.answers {
        BumpStreakValid(st.streaks, me.id, q.date);
        BumpStreakValid(BumpStreak(st.streaks, me.id, q.date), partner, q.date);
      }
    }
  }

  /** The streaks move only when this answer completes the pair. */
  lemma SubmitAnswerStreaksMove(st: State, me: User, qid: string, text: string, at: int)
    requires Consistent(st)
    ensures var r := SubmitAnswer(st, me, qid, text, at);
      r.state.streaks != st.streaks ==> r.result.Ok? && r.result.value.bothAnswered
  {
  }

  /** Only the two partners' streaks can move. */
  lemma SubmitAnswerStreaksOthers(st: State, me: User, qid: string, text: string, at: int, v: UserId)
    requires Consistent(st) && v in st.streaks && v != me.id && (me.partner.None? || v != me.partner.value.id)
    ensures var r := SubmitAnswer(st, me, qid, text, at);
      v in r.state.streaks && r.state.streaks[v] == st.streaks[v]
  {
  }

  /**
   * `add_reaction`: a reaction outside the fixed list is refused, an unknown
   * question is not found; otherwise the caller's reaction is set, replacing
   * any earlier one, and nothing else changes.
   */
  function AddReaction(st: State, me: User, qid: string, reaction: string): (r: Outcome<()>)
    ensures r.result == Err(InvalidReaction) <==> reaction !in VALID_REACTIONS
    ensures r.result == Err(QuestionNotFound) <==>
      reaction in VALID_REACTIONS && FindById(st.questions, qid) == |st.questions|
    ensures r.result.Err? ==> r.state == st
    ensures r.result.Ok? ==>
      var i := FindById(st.questions, qid);
      && i < |st.questions|
      && r.state.questions == st.questions[i := st.questions[i].(reactions := st.questions[i].reactions[me.id := reaction])]
      && r.state.streaks == st.streaks
  {
    if reaction !in VALID_REACTIONS then Outcome(st, Err(InvalidReaction))
    else
      var i := FindById(st.questions, qid);
      if i == |st.questions| then Outcome(st, Err(QuestionNotFound))
      else
        var q := st.questions[i];
        Outcome(st.(questions := st.questions[i := q.(reactions := q.reactions[me.id := reaction])]), Ok(()))
  }

  lemma AddReactionValid(st: State, me: User, qid: string, reaction: string)
    requires Consistent(st)
    ensures Consistent(AddReaction(st, me, qid, reaction).state)
  {
  }

  /** `me`'s view of each question stored for the pair `key`, in order. */
  function Views(qs: seq<Question>, key: string, me: UserId, partner: UserId): (r: seq<View>)
    ensures |r| <= |qs|
    ensures forall v :: v in r <==> exists q :: q in qs && q.pairKey == key && v == Project(q, me, partner)
  {
    if qs == [] then []
    else
      var rest := Views(qs[1..], key, me, partner);
      assert forall q :: q in qs <==> q == qs[0] || q in qs[1..];
      if qs[0].pairKey == key then [Project(qs[0], me, partner)] + rest else rest
  }

  /**
   * `get_question_history` without its ordering and limit: refused to an
   * unpaired user; otherwise the caller's view of every question of the pair,
   * each hiding the partner's answer until both have answered.
   */
  function History(qs: seq<Question>, me: User): (r: Result<seq<View>>)
    ensures r.Err? <==> !me.Paired()
    ensures r.Err? ==> r.error == NotPaired
    ensures r.Ok? ==>
      var partner := me.partner.value.id;
      forall v :: v in r.value <==>
        exists q :: q in qs && q.pairKey == Key(me.id, partner) && v == Project(q, me.id, partner)
  {
    if !me.Paired() then Err(NotPaired)
    else
      var partner := me.partner.value.id;
      Ok(Views(qs, Key(me.id, partner), me.id, partner))
  }

  /** In the history, a partner's answer shows only on a question both have answered. */
  lemma HistoryHidden(qs: seq<Question>, me: User, v: View)
    requires History(qs, me).Ok? && v in History(qs, me).value
    ensures v.partnerAnswer.Some? <==> v.bothAnswered
    ensures exists q ::
      && q in qs && q.id == v.id && q.pairKey == Key(me.id, me.partner.value.id)
      && (v.bothAnswered <==> me.id in q.answers && me.partner.value.id in q.answers)
      && (v.bothAnswered ==> v.partnerAnswer == Some(q.answers[me.partner.value.id].text))
  {
    var partner := me.partner.value.id;
    var q :| q in qs && q.pairKey == Key(me.id, partner) && v == Project(q, me.id, partner);
    ProjectReveals(q, me.id, partner);
  }

  /**
   * The question handlers over the stored collections, updated in place.
   * Each method has the effect of the corresponding function above.
   */
  class QuestionStore {
    var questions: seq<Question>
    var streaks: map<UserId, Streak>

    function Snapshot(): State
      reads this
    {
      State(questions, streaks)
    }

    constructor ()
      ensures Snapshot() == State([], map[]) && Consistent(Snapshot())
    {
      questions := [];
      streaks := map[];
    }

    method HandleGetToday(me: User, today: Date, newId: string, reply: Option<string>, pick: nat)
      returns (r: Result<View>)
      requires Consistent(Snapshot()) && Calendar.Valid(today) && pick < 3 && IdUnused(questions, newId)
      modifies this
      ensures Consistent(Snapshot())
      ensures Outcome(Snapshot(), r) == GetToday(old(Snapshot()), me, today, newId, reply, pick)
    {
      GetTodayValid(Snapshot(), me, today, newId, reply, pick);
      if !me.Paired() {
        return Err(NotPaired);
      }
      var partner := me.partner.value.id;
      var key := Key(me.id, partner);
      var i := FindDay(questions, key, today);
      if i < |questions| {
        return Ok(Project(questions[i], me.id, partner));
      }
      var category := CategoryForDate(today);
      var q := Question(newId, QuestionFromReply(reply, category, pick), category, today, key, map[], map[]);
      questions := questions + [q];
      r := Ok(Project(q, me.id, partner));
    }

    method HandleSubmit(me: User, qid: string, text: string, at: int) returns (r: Result<View>)
      requires Consistent(Snapshot())
      modifies this
      ensures Consistent(Snapshot())
      ensures Outcome(Snapshot(), r) == SubmitAnswer(old(Snapshot()), me, qid, text, at)
    {
      SubmitAnswerValid(Snapshot(), me, qid, text, at);
      if !me.Paired() {
        return Err(NotPaired);
      }
      if |text| > MAX_ANSWER_LENGTH {
        return Err(AnswerTooLong);
      }
      var i := FindById(questions, qid);
      if i == |questions| {
        return Err(QuestionNotFound);
      }
      var q := questions[i];
      if me.id in q.answers {
        return Err(AlreadyAnswered);
      }
      q := q.(answers := q.answers[me.id := Answer(text, at)]);
      questions := questions[i := q];
      var partner := me.partner.value.id;
      if partner in q.answers {
        var mine := UpdateStreak(Get(streaks, me.id), q.date);
        streaks := streaks[me.id := mine];
        var theirs := UpdateStreak(Get(streaks, partner), q.date);
        streaks := streaks[partner := theirs];
      }
      r := Ok(Project(q, me.id, partner));
    }

    method HandleReact(me: User, qid: string, reaction: string) returns (r: Result<()>)
      requires Consistent(Snapshot())
      modifies this
      ensures Consistent(Snapshot())
      ensures Outcome(Snapshot(), r) == AddReaction(old(Snapshot()), me, qid, reaction)
    {
      AddReactionValid(Snapshot(), me, qid, reaction);
      if reaction !in VALID_REACTIONS {
        return Err(InvalidReaction);
      }
      var i := FindById(questions, qid);
      if i == |questions| {
        return Err(QuestionNotFound);
      }
      var q := questions[i];
      questions := questions[i := q.(reactions := q.reactions[me.id := reaction])];
      r := Ok(());
    }

    /** `get_streak` for the caller. */
    method HandleGetStreak(me: UserId) returns (s: Streak)
      ensures me !in streaks ==> s.current == 0 && s.longest == 0 && s.last.None? && s.milestones == []
      ensures me in streaks ==> s == streaks[me]
    {
      s := GetStreak(Get(streaks, me));
    }
  }
}
