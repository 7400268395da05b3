/**
 * Love notes (`send_love_note`, `get_love_notes`, `get_sent_notes`,
 * `mark_note_read`, `get_unread_count`). A paired user sends a note of at
 * most 500 characters to the partner; only the recipient can mark it read;
 * the unread count is the number of the caller's received notes not yet
 * read. The collection is a sequence in insertion order; the fresh id and
 * the time are parameters.
 */
module Notes {
  import opened Common

  datatype Note = Note(
    id: string, from: UserId, fromName: string, to: UserId,
    message: string, emoji: Option<string>, isRead: bool, createdAt: int)

  const MAX_MESSAGE_LENGTH: int := 500

  /**
   * `send_love_note`: refused to an unpaired user and for a message over 500
   * characters; otherwise an unread note from the caller to the partner is
   * appended.
   */
  function Send(notes: seq<Note>, me: User, message: string, emoji: Option<string>, newId: string, at: int)
    : (r: Result<seq<Note>>)
    ensures r == Err(NotPaired) <==> !me.Paired()
    ensures r == Err(MessageTooLong) <==> me.Paired() && |message| > MAX_MESSAGE_LENGTH
    ensures r.Ok? ==> r.value == notes + [Note(newId, me.id, me.name, me.partner.value.id, message, emoji, false, at)]
  {
    if !me.Paired() then Err(NotPaired)
    else if |message| > MAX_MESSAGE_LENGTH then Err(MessageTooLong)
    else Ok(notes + [Note(newId, me.id, me.name, me.partner.value.id, message, emoji, false, at)])
  }

  /** Position of the first note with this id addressed to `me`, or `|notes|`. */
  function FindReceived(notes: seq<Note>, me: UserId, id: string): (i: nat)
    ensures i <= |notes|
    ensures i < |notes| ==> notes[i].id == id && notes[i].to == me
    ensures forall j :: 0 <= j < i ==> !(notes[j].id == id && notes[j].to == me)
  {
    if notes == [] then 0
    else if notes[0].id == id && notes[0].to == me then 0
    else 1 + FindReceived(notes[1..], me, id)
  }

  /**
   * `mark_note_read`: the first note with the id that is addressed to the
   * caller is marked read; when there is none (an unknown id, or a note to
   * someone else) the note is not found and nothing changes.
   */
  function MarkRead(notes: seq<Note>, me: UserId, id: string): (r: Result<seq<Note>>)
    ensures r.Err? <==> forall k :: 0 <= k < |notes| ==> !(notes[k].id == id && notes[k].to == me)
    ensures r.Err? ==> r.error == NoteNotFound
    ensures r.Ok? ==>
      var i := FindReceived(notes, me, id);
      i < |notes| && r.value == notes[i := notes[i].(isRead := true)]
  {
    var i := FindReceived(notes, me, id);
    if i == |notes| then Err(NoteNotFound)
    else Ok(notes[i := notes[i].(isRead := true)])
  }

  /** Whether a note counts towards `u`'s unread count. */
  predicate UnreadBy(n: Note, u: UserId) {
    n.to == u && !n.isRead
  }

  /** `get_unread_count`: the number of notes to `u` that are not read. */
  function UnreadCount(notes: seq<Note>, u: UserId): (c: nat)
    ensures c <= |notes|
    ensures c == 0 <==> forall k :: 0 <= k < |notes| ==> !UnreadBy(notes[k], u)
  {
    if notes == [] then 0
    else (if UnreadBy(notes[0], u) then 1 else 0) + UnreadCount(notes[1..], u)
  }

  /** Appending a note adds one to the count of the user it counts for. */
  lemma {:induction false} UnreadCountAppend(notes: seq<Note>, n: Note, u: UserId)
    ensures UnreadCount(notes + [n], u) == UnreadCount(notes, u) + if UnreadBy(n, u) then 1 else 0
  {
    if notes != [] {
      assert (notes + [n])[1..] == notes[1..] + [n];
      UnreadCountAppend(notes[1..], n, u);
    }
  }

  /** Replacing one note changes the count by the difference it makes. */
  lemma {:induction false} UnreadCountUpdate(notes: seq<Note>, i: nat, n: Note, u: UserId)
    requires i < |notes|
    ensures UnreadCount(notes[i := n], u) + (if UnreadBy(notes[i], u) then 1 else 0)
         == UnreadCount(notes, u) + (if UnreadBy(n, u) then 1 else 0)
  {
    if i == 0 {
      assert notes[i := n][1..] == notes[1..];
    } else {
      assert notes[i := n][1..] == notes[1..][i - 1 := n];
      UnreadCountUpdate(notes[1..], i - 1, n, u);
    }
  }

  /**
   * Sending a note raises the partner's unread count by one and leaves
   * everyone else's alone (a user who sends to themself is not paired).
   */
  lemma SendCounts(notes: seq<Note>, me: User, message: string, emoji: Option<string>, newId: string, at: int, u: UserId)
    requires Send(notes, me, message, emoji, newId, at).Ok?
    ensures UnreadCount(Send(notes, me, message, emoji, newId, at).value, u)
         == UnreadCount(notes, u) + if u == me.partner.value.id then 1 else 0
  {
    UnreadCountAppend(notes, Note(newId, me.id, me.name, me.partner.value.id, message, emoji, false, at), u);
  }

  /**
   * Marking a note read lowers the caller's unread count by one when the
   * note was unread, and by nothing when it had been read already; nobody
   * else's count changes.
   */
  lemma MarkReadCounts(notes: seq<Note>, me: UserId, id: string, u: UserId)
    requires MarkRead(notes, me, id).Ok?
    ensures var i := FindReceived(notes, me, id);
      UnreadCount(MarkRead(notes, me, id).value, u)
        == UnreadCount(notes, u) - if u == me && !notes[i].isRead then 1 else 0
  {
    var i := FindReceived(notes, me, id);
    UnreadCountUpdate(notes, i, notes[i].(isRead := true), u);
  }

  /** Marking the same note read twice leaves the notes as marking it once. */
  lemma MarkReadIdempotent(notes: seq<Note>, me: UserId, id: string)
    requires MarkRead(notes, me, id).Ok?
    ensures MarkRead(MarkRead(notes, me, id).value, me, id) == MarkRead(notes, me, id)
  {
    var i := FindReceived(notes, me, id);
    var once := notes[i := notes[i].(isRead := true)];
    assert FindReceived(once, me, id) == i by {
      assert once[i].id == id && once[i].to == me;
    }
    assert MarkRead(once, me, id) == Ok(once[i := once[i].(isRead := true)]);
    assert once[i := once[i].(isRead := true)] == once;
  }

  /** The notes addressed to `u`, in order. */
  function AddressedTo(notes: seq<Note>, u: UserId): (r: seq<Note>)
    ensures forall n :: n in r <==> n in notes && n.to == u
  {
    if notes == [] then []
    else (if notes[0].to == u then [notes[0]] else []) + AddressedTo(notes[1..], u)
  }

  /** The notes sent by `u`, in order. */
  function SentBy(notes: seq<Note>, u: UserId): (r: seq<Note>)
    ensures forall n :: n in r <==> n in notes && n.from == u
  {
    if notes == [] then []
    else (if notes[0].from == u then [notes[0]] else []) + SentBy(notes[1..], u)
  }

  /** `get_love_notes`: refused to an unpaired user; otherwise the notes addressed to the caller. */
  function Received(notes: seq<Note>, me: User): (r: Result<seq<Note>>)
    ensures r.Err? <==> !me.Paired()
    ensures r.Ok? ==> forall n :: n in r.value <==> n in notes && n.to == me.id
  {
    if !me.Paired() then Err(NotPaired) else Ok(AddressedTo(notes, me.id))
  }

  /** `get_sent_notes`: the notes the caller sent (no pairing needed). */
  function Sent(notes: seq<Note>, me: User): (r: seq<Note>)
    ensures forall n :: n in r <==> n in notes && n.from == me.id
  {
    SentBy(notes, me.id)
  }

  /** The `love_notes` collection, updated in place by the note handlers. */
  class NoteStore {
    var notes: seq<Note>

    constructor ()
      ensures notes == []
    {
      notes := [];
    }

    method HandleSend(me: User, message: string, emoji: Option<string>, newId: string, at: int)
      returns (r: Result<Note>)
      modifies this
      ensures var s := Send(old(notes), me, message, emoji, newId, at);
        && (s.Ok? ==> r.Ok? && notes == s.value && r.value == notes[|notes| - 1])
        && (s.Err? ==> r == Err(s.error) && notes == old(notes))
      ensures r.Ok? ==> UnreadCount(notes, me.partner.value.id) == UnreadCount(old(notes), me.partner.value.id) + 1
    {
      if !me.Paired() {
        return Err(NotPaired);
      }
      if |message| > MAX_MESSAGE_LENGTH {
        return Err(MessageTooLong);
      }
      var n := Note(newId, me.id, me.name, me.partner.value.id, message, emoji, false, at);
      SendCounts(notes, me, message, emoji, newId, at, me.partner.value.id);
      notes := notes + [n];
      r := Ok(n);
    }

    method HandleMarkRead(me: UserId, id: string) returns (r: Result<()>)
      modifies this
      ensures var m := MarkRead(old(notes), me, id);
        && (m.Ok? ==> r.Ok? && notes == m.value)
        && (m.Err? ==> r == Err(m.error) && notes == old(notes))
    {
      var i := FindReceived(notes, me, id);
      if i == |notes| {
        return Err(NoteNotFound);
      }
      notes := notes[i := notes[i].(isRead := true)];
      r := Ok(());
    }
  }
}
