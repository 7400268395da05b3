/**
 * Pairing two accounts (`generate_code`, `connect_with_partner`). A user
 * without a partner asks for a six-character code that lives for 24 hours;
 * another user enters it and the two records are made to point at each other.
 *
 * The users collection is a map keyed by id. The pairing-code collection is a
 * sequence in insertion order, so that `find_one` and `delete_one` by code
 * act on the first matching record even when two random codes collide. The
 * current time is a parameter, in seconds; the random characters of a new
 * code are a parameter too.
 */
module Pairing {
  import opened Common
  import opened Text

  /** A stored pairing code, with the owner's name copied at generation time. */
  datatype PairingCode = PairingCode(code: string, owner: UserId, ownerName: string, expiresAt: int, createdAt: int)

  datatype Db = Db(users: map<UserId, User>, codes: seq<PairingCode>)

  /** What a handler leaves behind: the new state, and the response or the rejection. */
  datatype Reply<+T> = Reply(db: Db, result: Result<T>)

  const CODE_ALPHABET: string := "ABCDEFGHIJKLMNOPQRSTUVWXYZ0123456789"
  const CODE_LENGTH: nat := 6
  /** `timedelta(hours=24)` in seconds. */
  const CODE_LIFETIME: int := 24 * 60 * 60

  /** `generate_pairing_code`: the characters `random.choices` picked, given by their positions in the alphabet. */
  function CodeFrom(picks: seq<nat>): (c: string)
    requires |picks| == CODE_LENGTH && forall k :: 0 <= k < |picks| ==> picks[k] < |CODE_ALPHABET|
    ensures |c| == CODE_LENGTH && forall k :: 0 <= k < |c| ==> c[k] in CODE_ALPHABET
  {
    seq(CODE_LENGTH, k requires 0 <= k < CODE_LENGTH => CODE_ALPHABET[picks[k]])
  }

  /** A generated code is already upper case, so entering it as shown finds it. */
  lemma CodeIsUpper(picks: seq<nat>)
    requires |picks| == CODE_LENGTH && forall k :: 0 <= k < |picks| ==> picks[k] < |CODE_ALPHABET|
    ensures Upper(CodeFrom(picks)) == CodeFrom(picks)
  {
    var c := CodeFrom(picks);
    forall k | 0 <= k < |c|
      ensures UpperChar(c[k]) == c[k]
    {
      assert c[k] == CODE_ALPHABET[picks[k]];
    }
  }

  /** `find_one({"code": code})`: the first stored record with that code, or `|codes|` when there is none. */
  function FindCode(codes: seq<PairingCode>, code: string): (i: nat)
    ensures i <= |codes|
    ensures i < |codes| ==> codes[i].code == code
    ensures forall j :: 0 <= j < i ==> codes[j].code != code
  {
    if codes == [] then 0
    else if codes[0].code == code then 0
    else 1 + FindCode(codes[1..], code)
  }

  function RemoveAt<T>(s: seq<T>, i: nat): (r: seq<T>)
    requires i < |s|
    ensures |r| == |s| - 1
    ensures forall j :: 0 <= j < i ==> r[j] == s[j]
    ensures forall j :: i <= j < |r| ==> r[j] == s[j + 1]
  {
    s[..i] + s[i + 1..]
  }

  /** `delete_many({"user_id": owner})`: every code of `owner` dropped, the others kept in order. */
  function WithoutOwner(codes: seq<PairingCode>, owner: UserId): (r: seq<PairingCode>)
    ensures forall k :: 0 <= k < |r| ==> r[k].owner != owner && r[k] in codes
    ensures forall k :: 0 <= k < |codes| && codes[k].owner != owner ==> codes[k] in r
  {
    if codes == [] then []
    else if codes[0].owner == owner then WithoutOwner(codes[1..], owner)
    else [codes[0]] + WithoutOwner(codes[1..], owner)
  }

  /** Partner fields are symmetric: my partner is a different, existing user whose partner fields name me. */
  predicate PartnerOk(users: map<UserId, User>, id: UserId)
    requires id in users
  {
    match users[id].partner
    case None => true
    case Some(r) => r.id != id && r.id in users && users[r.id].partner == Some(PartnerRef(id, users[id].name))
  }

  /** The state the pairing handlers keep: records under their own ids, symmetric partners, codes of known users. */
  predicate Valid(db: Db) {
    && (forall id | id in db.users :: db.users[id].id == id && PartnerOk(db.users, id))
    && (forall k | 0 <= k < |db.codes| ::
          db.codes[k].owner in db.users && db.users[db.codes[k].owner].name == db.codes[k].ownerName)
  }

  /**
   * `generate_code` for the authenticated `caller`: rejected when the caller
   * is paired; otherwise the caller's earlier codes are deleted and `code`
   * is stored, expiring 24 hours after `now`.
   */
  function GenerateCode(db: Db, caller: UserId, code: string, now: int): (r: Reply<PairingCode>)
    requires caller in db.users
    ensures r.result.Err? <==> db.users[caller].Paired()
    ensures r.result.Err? ==> r.db == db && r.result.error == AlreadyPaired
    ensures r.result.Ok? ==>
      && r.result.value == PairingCode(code, caller, db.users[caller].name, now + CODE_LIFETIME, now)
      && r.db.users == db.users
      && r.db.codes == WithoutOwner(db.codes, caller) + [r.result.value]
  {
    var me := db.users[caller];
    if me.Paired() then Reply(db, Err(AlreadyPaired))
    else
      var p := PairingCode(code, caller, me.name, now + CODE_LIFETIME, now);
      Reply(db.(codes := WithoutOwner(db.codes, caller) + [p]), Ok(p))
  }

  /** After generating, the caller owns exactly one code, the new one, and the state stays valid. */
  lemma GenerateCodeValid(db: Db, caller: UserId, code: string, now: int)
    requires Valid(db) && caller in db.users
    ensures var r := GenerateCode(db, caller, code, now);
      && Valid(r.db)
      && (r.result.Ok? ==> forall k :: 0 <= k < |r.db.codes| && r.db.codes[k].owner == caller ==> k == |r.db.codes| - 1)
  {
    var r := GenerateCode(db, caller, code, now);
    if r.result.Ok? {
      var kept := WithoutOwner(db.codes, caller);
      forall k | 0 <= k < |r.db.codes|
        ensures r.db.codes[k].owner in r.db.users && r.db.users[r.db.codes[k].owner].name == r.db.codes[k].ownerName
      {
        if k < |kept| {
          assert r.db.codes[k] == kept[k];
          var j :| 0 <= j < |db.codes| && db.codes[j] == kept[k];
        }
      }
    }
  }

  /** The caller's record after pairing with the owner of `p`. */
  function PairedCaller(me: User, p: PairingCode): User {
    me.(partner := Some(PartnerRef(p.owner, p.ownerName)))
  }

  /** The users map after both `update_one` calls: the caller first, then the code's owner (if that record exists). */
  function LinkUsers(users: map<UserId, User>, caller: UserId, p: PairingCode): (r: map<UserId, User>)
    requires caller in users
    ensures r.Keys == users.Keys
  {
    var me := users[caller];
    var users1 := users[caller := PairedCaller(me, p)];
    if p.owner in users1 then users1[p.owner := users1[p.owner].(partner := Some(PartnerRef(caller, me.name)))]
    else users1
  }

  /**
   * `connect_with_partner` as written: rejected when the caller is paired,
   * when no stored code equals the upper-cased input, when that code has
   * expired (it is then deleted) and when the caller owns it; otherwise the
   * two records are linked and the code is deleted. Nothing checks whether
   * the code's owner has found a partner in the meantime.
   */
  function ConnectAsWritten(db: Db, caller: UserId, entered: string, now: int): (r: Reply<User>)
    requires caller in db.users
    ensures r.db.users.Keys == db.users.Keys
  {
    var me := db.users[caller];
    var i := FindCode(db.codes, Upper(entered));
    if me.Paired() then Reply(db, Err(AlreadyPaired))
    else if i == |db.codes| then Reply(db, Err(InvalidPairingCode))
    else if db.codes[i].expiresAt < now then Reply(db.(codes := RemoveAt(db.codes, i)), Err(PairingCodeExpired))
    else if db.codes[i].owner == caller then Reply(db, Err(SelfPairing))
    else
      var users := LinkUsers(db.users, caller, db.codes[i]);
      Reply(Db(users, RemoveAt(db.codes, i)), Ok(users[caller]))
  }

  /**
   * `connect_with_partner` with the missing check added: a code whose owner
   * already has a partner is refused (and left in place). Every other branch
   * is the code as written.
   */
  function Connect(db: Db, caller: UserId, entered: string, now: int): (r: Reply<User>)
    requires caller in db.users
    ensures var i := FindCode(db.codes, Upper(entered));
      && (r.result.Ok? <==>
            && !db.users[caller].Paired() && i < |db.codes| && now <= db.codes[i].expiresAt
            && db.codes[i].owner != caller
            && !(db.codes[i].owner in db.users && db.users[db.codes[i].owner].Paired()))
      && (r.result == Err(PairingCodeExpired) ==> i < |db.codes| && r.db == db.(codes := RemoveAt(db.codes, i)))
      && (r.result.Err? && r.result.error != PairingCodeExpired ==> r.db == db)
      && (r.result.Ok? ==> r.db.codes == RemoveAt(db.codes, i))
    // each rejection, in the order the handler checks them
    ensures db.users[caller].Paired() ==> r == Reply(db, Err(AlreadyPaired))
    ensures var i := FindCode(db.codes, Upper(entered));
      !db.users[caller].Paired() && i == |db.codes| ==> r == Reply(db, Err(InvalidPairingCode))
    ensures var i := FindCode(db.codes, Upper(entered));
      !db.users[caller].Paired() && i < |db.codes| && db.codes[i].expiresAt < now ==>
        r == Reply(db.(codes := RemoveAt(db.codes, i)), Err(PairingCodeExpired))
    ensures var i := FindCode(db.codes, Upper(entered));
      !db.users[caller].Paired() && i < |db.codes| && now <= db.codes[i].expiresAt && db.codes[i].owner == caller ==>
        r == Reply(db, Err(SelfPairing))
    ensures var i := FindCode(db.codes, Upper(entered));
      && !db.users[caller].Paired() && i < |db.codes| && now <= db.codes[i].expiresAt && db.codes[i].owner != caller
      && db.codes[i].owner in db.users && db.users[db.codes[i].owner].Paired()
      ==> r == Reply(db, Err(CodeOwnerPaired))
  {
    var i := FindCode(db.codes, Upper(entered));
    if !db.users[caller].Paired() && i < |db.codes| && now <= db.codes[i].expiresAt
       && db.codes[i].owner != caller && db.codes[i].owner in db.users && db.users[db.codes[i].owner].Paired()
    then Reply(db, Err(CodeOwnerPaired))
    else ConnectAsWritten(db, caller, entered, now)
  }

  /** A successful connection makes the caller and the code's owner each other's partners and changes no one else. */
  lemma ConnectPairs(db: Db, caller: UserId, entered: string, now: int)
    requires Valid(db) && caller in db.users
    requires Connect(db, caller, entered, now).result.Ok?
    ensures var r := Connect(db, caller, entered, now);
      var owner := db.codes[FindCode(db.codes, Upper(entered))].owner;
      && owner in db.users && owner != caller
      && r.db.users[caller].partner == Some(PartnerRef(owner, db.users[owner].name))
      && r.db.users[owner].partner == Some(PartnerRef(caller, db.users[caller].name))
      && r.result.value == r.db.users[caller]
      && forall id | id in db.users && id != caller && id != owner :: r.db.users[id] == db.users[id]
  {
  }

  /** The corrected handler keeps the state valid, whatever the input and outcome. */
  lemma ConnectValid(db: Db, caller: UserId, entered: string, now: int)
    requires Valid(db) && caller in db.users
    ensures Valid(Connect(db, caller, entered, now).db)
  {
    var r := Connect(db, caller, entered, now);
    var i := FindCode(db.codes, Upper(entered));
    if r.result.Ok? {
      var owner := db.codes[i].owner;
      var users := r.db.users;
      forall id | id in users
        ensures users[id].id == id && PartnerOk(users, id)
      {
        if id != caller && id != owner {
          assert users[id] == db.users[id];
          assert PartnerOk(db.users, id);
          match db.users[id].partner
          case None =>
          case Some(p) =>
            assert p.id != caller && p.id != owner by {
              assert PartnerOk(db.users, p.id);
            }
        }
      }
    }
  }

  /** Three users, all unpaired, with no codes: a valid starting state. */
  function ThreeUsers(): Db {
    Db(map["x" := User("x", "Xan", None), "y" := User("y", "Yue", None), "z" := User("z", "Zed", None)], [])
  }

  lemma ThreeUsersValid()
    ensures Valid(ThreeUsers())
  {
    var users := ThreeUsers().users;
    assert forall id | id in users :: users[id].partner.None?;
  }

  /** x's and y's codes, as the two `generate_code` calls at time 0 store them. */
  function CodeOfX(): PairingCode { PairingCode("AAAAAA", "x", "Xan", CODE_LIFETIME, 0) }
  function CodeOfY(): PairingCode { PairingCode("BBBBBB", "y", "Yue", CODE_LIFETIME, 0) }

  lemma BothGenerate()
    ensures GenerateCode(ThreeUsers(), "x", "AAAAAA", 0).db == Db(ThreeUsers().users, [CodeOfX()])
    ensures GenerateCode(Db(ThreeUsers().users, [CodeOfX()]), "y", "BBBBBB", 0).db
         == Db(ThreeUsers().users, [CodeOfX(), CodeOfY()])
  {
    assert WithoutOwner([CodeOfX()], "y") == [CodeOfX()] + WithoutOwner([], "y");
  }

  /** The users after x has entered y's code: x and y point at each other. */
  function AfterFirstLink(): map<UserId, User> {
    map["x" := User("x", "Xan", Some(PartnerRef("y", "Yue"))),
        "y" := User("y", "Yue", Some(PartnerRef("x", "Xan"))),
        "z" := User("z", "Zed", None)]
  }

  lemma XEntersCodeOfY()
    ensures ConnectAsWritten(Db(ThreeUsers().users, [CodeOfX(), CodeOfY()]), "x", "bbbbbb", 10).db
         == Db(AfterFirstLink(), [CodeOfX()])
  {
    assert Upper("bbbbbb") == "BBBBBB";
    assert FindCode([CodeOfX(), CodeOfY()], "BBBBBB") == 1;
    assert RemoveAt([CodeOfX(), CodeOfY()], 1) == [CodeOfX()];
  }

  lemma ZEntersCodeOfX()
    ensures var r := ConnectAsWritten(Db(AfterFirstLink(), [CodeOfX()]), "z", "AAAAAA", 20);
      && r.result.Ok?
      && r.db.users["x"].partner == Some(PartnerRef("z", "Zed"))
      && r.db.users["y"] == AfterFirstLink()["y"]
      && !Valid(r.db)
  {
    assert Upper("AAAAAA") == "AAAAAA";
    assert FindCode([CodeOfX()], "AAAAAA") == 0;
    var r := ConnectAsWritten(Db(AfterFirstLink(), [CodeOfX()]), "z", "AAAAAA", 20);
    assert !PartnerOk(r.db.users, "y");
  }

  /**
   * The code as written can break the symmetry of partners: x and y each
   * generate a code, x uses y's code, and then z uses x's code, which
   * nobody deleted. Afterwards x's partner is z while y's partner is still x.
   */
  lemma ConnectAsWrittenBreaksSymmetry()
    ensures var s0 := ThreeUsers();
      var s1 := GenerateCode(s0, "x", "AAAAAA", 0).db;
      var s2 := GenerateCode(s1, "y", "BBBBBB", 0).db;
      var s3 := ConnectAsWritten(s2, "x", "bbbbbb", 10).db;
      var s4 := ConnectAsWritten(s3, "z", "AAAAAA", 20);
      && Valid(s0) && s4.result.Ok?
      && s4.db.users["x"].partner == Some(PartnerRef("z", "Zed"))
      && s4.db.users["y"].partner == Some(PartnerRef("x", "Xan"))
      && !Valid(s4.db)
  {
    ThreeUsersValid();
    BothGenerate();
    XEntersCodeOfY();
    ZEntersCodeOfX();
  }

  /**
   * The two pairing handlers over the stored collections, updated in place.
   * Each method has the effect of the corresponding function above.
   */
  class PairingStore {
    var users: map<UserId, User>
    var codes: seq<PairingCode>

    function State(): Db
      reads this
    {
      Db(users, codes)
    }

    constructor (users0: map<UserId, User>)
      ensures State() == Db(users0, [])
    {
      users := users0;
      codes := [];
    }

    method HandleGenerate(caller: UserId, code: string, now: int) returns (r: Result<PairingCode>)
      requires caller in users && Valid(State())
      modifies this
      ensures Valid(State())
      ensures Reply(State(), r) == GenerateCode(old(State()), caller, code, now)
    {
      GenerateCodeValid(State(), caller, code, now);
      var me := users[caller];
      if me.Paired() {
        return Err(AlreadyPaired);
      }
      codes := WithoutOwner(codes, caller);
      var p := PairingCode(code, caller, me.name, now + CODE_LIFETIME, now);
      codes := codes + [p];
      r := Ok(p);
    }

    method HandleConnect(caller: UserId, entered: string, now: int) returns (r: Result<User>)
      requires caller in users && Valid(State())
      modifies this
      ensures Valid(State())
      ensures Reply(State(), r) == Connect(old(State()), caller, entered, now)
    {
      ConnectValid(State(), caller, entered, now);
      var me := users[caller];
      if me.Paired() {
        return Err(AlreadyPaired);
      }
      var i := FindCode(codes, Upper(entered));
      if i == |codes| {
        return Err(InvalidPairingCode);
      }
      var p := codes[i];
      if p.expiresAt < now {
        codes := RemoveAt(codes, i);
        return Err(PairingCodeExpired);
      }
      if p.owner == caller {
        return Err(SelfPairing);
      }
      if p.owner in users && users[p.owner].Paired() {
        return Err(CodeOwnerPaired);
      }
      users := users[caller := PairedCaller(me, p)];
      if p.owner in users {
        users := users[p.owner := users[p.owner].(partner := Some(PartnerRef(caller, me.name)))];
      }
      codes := RemoveAt(codes, i);
      r := Ok(users[caller]);
    }
  }
}
