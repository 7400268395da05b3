/**
 * Mood check-ins (`submit_mood`, `get_today_mood`, `get_mood_history`).
 * A user picks one of five moods; there is one check-in per user per day,
 * so a second check-in on the same day rewrites the first and keeps its id.
 * No pairing is needed. The collection is a sequence in insertion order;
 * today's date, the fresh id and the time are parameters.
 */
module Moods {
  import opened Common
  import opened Calendar

  const VALID_MOODS: seq<string> := ["happy", "content", "neutral", "stressed", "sad"]

  datatype CheckIn = CheckIn(
    id: string, user: UserId, userName: string, mood: string, note: Option<string>, date: Date, createdAt: int)

  /** `TodayMoodResponse` */
  datatype Today = Today(mine: Option<CheckIn>, partners: Option<CheckIn>)

  /** Position of the first check-in of `u` on day `d`, or `|ms|`. */
  function FindDay(ms: seq<CheckIn>, u: UserId, d: Date): (i: nat)
    ensures i <= |ms|
    ensures i < |ms| ==> ms[i].user == u && ms[i].date == d
    ensures forall j :: 0 <= j < i ==> !(ms[j].user == u && ms[j].date == d)
  {
    if ms == [] then 0
    else if ms[0].user == u && ms[0].date == d then 0
    else 1 + FindDay(ms[1..], u, d)
  }

  /** Position of the first check-in with this id, or `|ms|`. */
  function FindById(ms: seq<CheckIn>, id: string): (i: nat)
    ensures i <= |ms|
    ensures i < |ms| ==> ms[i].id == id
    ensures forall j :: 0 <= j < i ==> ms[j].id != id
  {
    if ms == [] then 0 else if ms[0].id == id then 0 else 1 + FindById(ms[1..], id)
  }

  /**
   * `submit_mood`: a mood outside the five is refused. Otherwise the document
   * for the caller and today is built, with the id of today's earlier
   * check-in when there is one (and then written over the document with that
   * id), or with the fresh id (and then appended). The document is returned.
   */
  function Submit(ms: seq<CheckIn>, me: User, mood: string, note: Option<string>, today: Date, newId: string, at: int)
    : (r: Result<(seq<CheckIn>, CheckIn)>)
    ensures r.Err? <==> mood !in VALID_MOODS
    ensures r.Err? ==> r.error == InvalidMood
    ensures r.Ok? ==>
      var i := FindDay(ms, me.id, today);
      var (ms2, doc) := r.value;
      && doc == CheckIn(if i < |ms| then ms[i].id else newId, me.id, me.name, mood, note, today, at)
      && (i < |ms| ==> |ms2| == |ms| && FindById(ms, doc.id) < |ms| && ms2 == ms[FindById(ms, doc.id) := doc])
      && (i == |ms| ==> ms2 == ms + [doc])
  {
    if mood !in VALID_MOODS then Err(InvalidMood)
    else
      var i := FindDay(ms, me.id, today);
      if i < |ms| then
        var doc := CheckIn(ms[i].id, me.id, me.name, mood, note, today, at);
        Ok((ms[FindById(ms, doc.id) := doc], doc))
      else
        var doc := CheckIn(newId, me.id, me.name, mood, note, today, at);
        Ok((ms + [doc], doc))
  }

  /** Ids are unique, and no user has two check-ins on one day. */
  predicate Consistent(ms: seq<CheckIn>) {
    && (forall i, j :: 0 <= i < j < |ms| ==> ms[i].id != ms[j].id)
    && (forall i, j :: 0 <= i < j < |ms| ==> !(ms[i].user == ms[j].user && ms[i].date == ms[j].date))
  }

  predicate IdUnused(ms: seq<CheckIn>, id: string) {
    forall i :: 0 <= i < |ms| ==> ms[i].id != id
  }

  /** With unique ids, the write of an existing check-in lands on that same check-in. */
  lemma RewriteInPlace(ms: seq<CheckIn>, me: UserId, today: Date)
    requires Consistent(ms) && FindDay(ms, me, today) < |ms|
    ensures FindById(ms, ms[FindDay(ms, me, today)].id) == FindDay(ms, me, today)
  {
  }

  /**
   * A check-in keeps the collection consistent: still one check-in per user
   * per day and unique ids, with the caller's check-in for today being the
   * document just written.
   */
  lemma SubmitValid(ms: seq<CheckIn>, me: User, mood: string, note: Option<string>, today: Date, newId: string, at: int)
    requires Consistent(ms) && IdUnused(ms, newId) && Submit(ms, me, mood, note, today, newId, at).Ok?
    ensures var (ms2, doc) := Submit(ms, me, mood, note, today, newId, at).value;
      && Consistent(ms2)
      && FindDay(ms2, me.id, today) < |ms2| && ms2[FindDay(ms2, me.id, today)] == doc
  {
    var i := FindDay(ms, me.id, today);
    var (ms2, doc) := Submit(ms, me, mood, note, today, newId, at).value;
    if i < |ms| {
      RewriteInPlace(ms, me.id, today);
      assert ms2 == ms[i := doc];
      assert ms2[i] == doc;
    } else {
      assert ms2[|ms|] == doc;
    }
  }

  /**
   * Checking in twice on one day keeps one check-in, under the first one's
   * id, holding the second mood.
   */
  lemma SubmitTwiceKeepsId(ms: seq<CheckIn>, me: User, m1: string, m2: string, n1: Option<string>, n2: Option<string>,
                           today: Date, id1: string, id2: string, at1: int, at2: int)
    requires Consistent(ms) && IdUnused(ms, id1)
    requires m1 in VALID_MOODS && m2 in VALID_MOODS
    ensures var (ms1, doc1) := Submit(ms, me, m1, n1, today, id1, at1).value;
      var (ms2, doc2) := Submit(ms1, me, m2, n2, today, id2, at2).value;
      && doc2.id == doc1.id && doc2.mood == m2
      && |ms2| == |ms1|
  {
    SubmitValid(ms, me, m1, n1, today, id1, at1);
  }

  /**
   * `get_today_mood`: the caller's check-in for today and, when paired, the
   * partner's; the first matching document each, or none.
   */
  function TodayMoods(ms: seq<CheckIn>, me: User, today: Date): (r: Today)
    ensures r.mine.Some? <==> exists k :: 0 <= k < |ms| && ms[k].user == me.id && ms[k].date == today
    ensures r.mine.Some? ==> r.mine.value.user == me.id && r.mine.value.date == today && r.mine.value in ms
    ensures r.mine.Some? ==> r.mine.value == ms[FindDay(ms, me.id, today)]
    ensures r.partners.Some? <==>
      me.Paired() && exists k :: 0 <= k < |ms| && ms[k].user == me.partner.value.id && ms[k].date == today
    ensures r.partners.Some? ==> r.partners.value.user == me.partner.value.id && r.partners.value.date == today
    ensures r.partners.Some? ==> r.partners.value in ms && r.partners.value == ms[FindDay(ms, me.partner.value.id, today)]
  {
    var i := FindDay(ms, me.id, today);
    var mine := if i < |ms| then Some(ms[i]) else None;
    if !me.Paired() then Today(mine, None)
    else
      var j := FindDay(ms, me.partner.value.id, today);
      Today(mine, if j < |ms| then Some(ms[j]) else None)
  }

  /** After a check-in, today's mood shows it for the caller. */
  lemma SubmitThenToday(ms: seq<CheckIn>, me: User, mood: string, note: Option<string>, today: Date, newId: string, at: int)
    requires Consistent(ms) && IdUnused(ms, newId) && Submit(ms, me, mood, note, today, newId, at).Ok?
    ensures var (ms2, doc) := Submit(ms, me, mood, note, today, newId, at).value;
      TodayMoods(ms2, me, today).mine == Some(doc)
  {
    SubmitValid(ms, me, mood, note, today, newId, at);
  }

  /** The check-ins of `u` and, if given, of `v`, in order. */
  function OfUsers(ms: seq<CheckIn>, u: UserId, v: Option<UserId>): (r: seq<CheckIn>)
    ensures forall c :: c in r <==> c in ms && (c.user == u || v == Some(c.user))
  {
    if ms == [] then []
    else (if ms[0].user == u || v == Some(ms[0].user) then [ms[0]] else []) + OfUsers(ms[1..], u, v)
  }

  /** `get_mood_history`: the check-ins of the caller and, when paired, of the partner. */
  function History(ms: seq<CheckIn>, me: User): (r: seq<CheckIn>)
    ensures forall c :: c in r <==> c in ms && (c.user == me.id || (me.Paired() && c.user == me.partner.value.id))
  {
    OfUsers(ms, me.id, if me.Paired() then Some(me.partner.value.id) else None)
  }

  /** The `moods` collection, updated in place by `submit_mood`. */
  class MoodStore {
    var checkIns: seq<CheckIn>

    constructor ()
      ensures checkIns == [] && Consistent(checkIns)
    {
      checkIns := [];
    }

    method HandleSubmit(me: User, mood: string, note: Option<string>, today: Date, newId: string, at: int)
      returns (r: Result<CheckIn>)
      requires Consistent(checkIns) && IdUnused(checkIns, newId)
      modifies this
      ensures Consistent(checkIns)
      ensures var s := Submit(old(checkIns), me, mood, note, today, newId, at);
        && (s.Ok? ==> r == Ok(s.value.1) && checkIns == s.value.0)
        && (s.Err? ==> r == Err(s.error) && checkIns == old(checkIns))
    {
      if mood !in VALID_MOODS {
        return Err(InvalidMood);
      }
      SubmitValid(checkIns, me, mood, note, today, newId, at);
      var i := FindDay(checkIns, me.id, today);
      if i < |checkIns| {
        var doc := CheckIn(checkIns[i].id, me.id, me.name, mood, note, today, at);
        var j := FindById(checkIns, doc.id);
        checkIns := checkIns[j := doc];
        r := Ok(doc);
      } else {
        var doc := CheckIn(newId, me.id, me.name, mood, note, today, at);
        checkIns := checkIns + [doc];
        r := Ok(doc);
      }
    }
  }
}
