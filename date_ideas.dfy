/**
 * Date ideas (`generate_date`, `get_date_ideas`, `toggle_favorite`,
 * `mark_completed`). A paired user asks for an idea for a budget, mood and
 * kind of place; the idea comes from the model's reply or the mood's
 * built-in one and is stored for the pair, neither favourite nor completed.
 * Either flag can then be flipped by anyone who knows the idea's id (the
 * handlers do not check the caller's pair). The collection is a sequence in
 * insertion order; the reply, the fresh id and the time are parameters.
 */
module DateIdeas {
  import opened Common
  import opened PairKey
  import opened DateIdeaReply

  datatype Idea = Idea(
    id: string, pairKey: string, title: string, description: string,
    budget: string, mood: string, location: string, tips: seq<string>,
    isFavorite: bool, isCompleted: bool, createdAt: int)

  /**
   * `generate_date`: refused to an unpaired user; otherwise the idea for the
   * reply and mood (the parsed reply, or the mood's built-in idea) is
   * appended for the caller's pair, with both flags off.
   */
  function Generate(ideas: seq<Idea>, me: User, budget: string, mood: string, location: string,
                    reply: Option<string>, newId: string, at: int): (r: Result<seq<Idea>>)
    ensures r.Err? <==> !me.Paired()
    ensures r.Err? ==> r.error == NotPaired
    ensures r.Ok? ==>
      && |r.value| == |ideas| + 1 && r.value[..|ideas|] == ideas
      && var n := r.value[|ideas|];
      && n.id == newId && n.pairKey == Key(me.id, me.partner.value.id)
      && n.title != [] && n.description != [] && n.tips != []
      && var d := DateIdeaFor(reply, mood);
      && n.title == d.title && n.description == d.description && n.tips == d.tips
      && n.budget == budget && n.mood == mood && n.location == location
      && !n.isFavorite && !n.isCompleted
  {
    if !me.Paired() then Err(NotPaired)
    else
      var d := DateIdeaFor(reply, mood);
      var n := Idea(newId, Key(me.id, me.partner.value.id), d.title, d.description,
                    budget, mood, location, d.tips, false, false, at);
      Ok(ideas + [n])
  }

  /** The ideas stored for pair `key`, in order. */
  function ForPair(ideas: seq<Idea>, key: string): (r: seq<Idea>)
    ensures forall n :: n in r <==> n in ideas && n.pairKey == key
  {
    if ideas == [] then []
    else (if ideas[0].pairKey == key then [ideas[0]] else []) + ForPair(ideas[1..], key)
  }

  /** `get_date_ideas`: refused to an unpaired user; otherwise the pair's ideas. */
  function List(ideas: seq<Idea>, me: User): (r: Result<seq<Idea>>)
    ensures r.Err? <==> !me.Paired()
    ensures r.Ok? ==> forall n :: n in r.value <==> n in ideas && n.pairKey == Key(me.id, me.partner.value.id)
  {
    if !me.Paired() then Err(NotPaired) else Ok(ForPair(ideas, Key(me.id, me.partner.value.id)))
  }

  /** Position of the first idea with this id, or `|ideas|`. */
  function FindIdea(ideas: seq<Idea>, id: string): (i: nat)
    ensures i <= |ideas|
    ensures i < |ideas| ==> ideas[i].id == id
    ensures forall j :: 0 <= j < i ==> ideas[j].id != id
  {
    if ideas == [] then 0 else if ideas[0].id == id then 0 else 1 + FindIdea(ideas[1..], id)
  }

  /**
   * `toggle_favorite`: an unknown id is not found; otherwise the first idea
   * with the id has its favourite flag flipped, and the new flag is returned.
   */
  function ToggleFavorite(ideas: seq<Idea>, id: string): (r: Result<(seq<Idea>, bool)>)
    ensures r.Err? <==> forall k :: 0 <= k < |ideas| ==> ideas[k].id != id
    ensures r.Err? ==> r.error == DateIdeaNotFound
    ensures r.Ok? ==>
      var i := FindIdea(ideas, id);
      && i < |ideas| && r.value.1 == !ideas[i].isFavorite
      && r.value.0 == ideas[i := ideas[i].(isFavorite := r.value.1)]
  {
    var i := FindIdea(ideas, id);
    if i == |ideas| then Err(DateIdeaNotFound)
    else Ok((ideas[i := ideas[i].(isFavorite := !ideas[i].isFavorite)], !ideas[i].isFavorite))
  }

  /**
   * `mark_completed`: an unknown id is not found; otherwise the first idea
   * with the id has its completed flag flipped (so marking twice un-marks),
   * and the new flag is returned.
   */
  function ToggleCompleted(ideas: seq<Idea>, id: string): (r: Result<(seq<Idea>, bool)>)
    ensures r.Err? <==> forall k :: 0 <= k < |ideas| ==> ideas[k].id != id
    ensures r.Err? ==> r.error == DateIdeaNotFound
    ensures r.Ok? ==>
      var i := FindIdea(ideas, id);
      && i < |ideas| && r.value.1 == !ideas[i].isCompleted
      && r.value.0 == ideas[i := ideas[i].(isCompleted := r.value.1)]
  {
    var i := FindIdea(ideas, id);
    if i == |ideas| then Err(DateIdeaNotFound)
    else Ok((ideas[i := ideas[i].(isCompleted := !ideas[i].isCompleted)], !ideas[i].isCompleted))
  }

  /** Rewriting the found idea without changing its id leaves it the one found. */
  lemma FindIdeaStable(ideas: seq<Idea>, id: string, n: Idea)
    requires FindIdea(ideas, id) < |ideas| && n.id == id
    ensures FindIdea(ideas[FindIdea(ideas, id) := n], id) == FindIdea(ideas, id)
  {
    var i := FindIdea(ideas, id);
    assert ideas[i := n][i].id == id;
  }

  /** Toggling the favourite flag twice restores every idea. */
  lemma ToggleFavoriteTwice(ideas: seq<Idea>, id: string)
    requires ToggleFavorite(ideas, id).Ok?
    ensures var once := ToggleFavorite(ideas, id).value;
      ToggleFavorite(once.0, id) == Ok((ideas, !once.1))
  {
    var i := FindIdea(ideas, id);
    var once := ideas[i := ideas[i].(isFavorite := !ideas[i].isFavorite)];
    FindIdeaStable(ideas, id, once[i]);
    assert once[i := once[i].(isFavorite := !once[i].isFavorite)] == ideas;
  }

  /** Toggling the completed flag twice restores every idea. */
  lemma ToggleCompletedTwice(ideas: seq<Idea>, id: string)
    requires ToggleCompleted(ideas, id).Ok?
    ensures var once := ToggleCompleted(ideas, id).value;
      ToggleCompleted(once.0, id) == Ok((ideas, !once.1))
  {
    var i := FindIdea(ideas, id);
    var once := ideas[i := ideas[i].(isCompleted := !ideas[i].isCompleted)];
    FindIdeaStable(ideas, id, once[i]);
    assert once[i := once[i].(isCompleted := !once[i].isCompleted)] == ideas;
  }

  /** The two flags are independent: toggling one in either order gives the same ideas. */
  lemma TogglesCommute(ideas: seq<Idea>, id: string)
    requires ToggleFavorite(ideas, id).Ok?
    ensures ToggleCompleted(ToggleFavorite(ideas, id).value.0, id).Ok?
    ensures ToggleFavorite(ToggleCompleted(ideas, id).value.0, id).Ok?
    ensures ToggleCompleted(ToggleFavorite(ideas, id).value.0, id).value.0
         == ToggleFavorite(ToggleCompleted(ideas, id).value.0, id).value.0
  {
    var i := FindIdea(ideas, id);
    FindIdeaStable(ideas, id, ideas[i].(isFavorite := !ideas[i].isFavorite));
    FindIdeaStable(ideas, id, ideas[i].(isCompleted := !ideas[i].isCompleted));
  }

  /** The `date_ideas` collection, updated in place by the handlers. */
  class DateIdeaStore {
    var ideas: seq<Idea>

    constructor ()
      ensures ideas == []
    {
      ideas := [];
    }

    method HandleGenerate(me: User, budget: string, mood: string, location: string,
                          reply: Option<string>, newId: string, at: int) returns (r: Result<Idea>)
      modifies this
      ensures var g := Generate(old(ideas), me, budget, mood, location, reply, newId, at);
        && (g.Ok? ==> r.Ok? && ideas == g.value && r.value == ideas[|ideas| - 1])
        && (g.Err? ==> r == Err(g.error) && ideas == old(ideas))
    {
      if !me.Paired() {
        return Err(NotPaired);
      }
      var d := DateIdeaFor(reply, mood);
      var n := Idea(newId, Key(me.id, me.partner.value.id), d.title, d.description,
                    budget, mood, location, d.tips, false, false, at);
      ideas := ideas + [n];
      r := Ok(n);
    }

    method HandleToggleFavorite(id: string) returns (r: Result<bool>)
      modifies this
      ensures var t := ToggleFavorite(old(ideas), id);
        && (t.Ok? ==> r == Ok(t.value.1) && ideas == t.value.0)
        && (t.Err? ==> r == Err(t.error) && ideas == old(ideas))
    {
      var i := FindIdea(ideas, id);
      if i == |ideas| {
        return Err(DateIdeaNotFound);
      }
      var flag := !ideas[i].isFavorite;
      ideas := ideas[i := ideas[i].(isFavorite := flag)];
      r := Ok(flag);
    }

    method HandleToggleCompleted(id: string) returns (r: Result<bool>)
      modifies this
      ensures var t := ToggleCompleted(old(ideas), id);
        && (t.Ok? ==> r == Ok(t.value.1) && ideas == t.value.0)
        && (t.Err? ==> r == Err(t.error) && ideas == old(ideas))
    {
      var i := FindIdea(ideas, id);
      if i == |ideas| {
        return Err(DateIdeaNotFound);
      }
      var flag := !ideas[i].isCompleted;
      ideas := ideas[i := ideas[i].(isCompleted := flag)];
      r := Ok(flag);
    }
  }
}
