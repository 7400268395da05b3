/**
 * Shared vocabulary of the backend model: optional values, the results of
 * handlers that may reject a request, the rejections themselves with the HTTP
 * status each one is reported with, and the authenticated caller.
 */
module Common {

  datatype Option<+T> = None | Some(value: T) {
    function GetOr(default: T): T {
      match this
      case Some(v) => v
      case None => default
    }
  }

  /** Every rejection a handler of the core raises as an HTTPException. */
  datatype Error =
    | NotPaired             // "You need to pair with a partner first"
    | AlreadyPaired         // "You are already paired with a partner"
    | InvalidPairingCode    // "Invalid pairing code"
    | PairingCodeExpired    // "Pairing code has expired"
    | SelfPairing           // "You cannot pair with yourself"
    | CodeOwnerPaired       // the code's owner has a partner by now (see Pairing.Connect)
    | AnswerTooLong         // "Answer must be 500 characters or less"
    | QuestionNotFound      // "Question not found"
    | AlreadyAnswered       // "You have already answered this question"
    | InvalidReaction       // "Reaction must be one of: ..."
    | TriviaNotFound        // "Trivia not found"
    | NotTriviaSubject      // "Only the person this question is about can set the answer"
    | InvalidOption         // "Invalid answer option"
    | GuessAboutSelf        // "You can't guess on a question about yourself"
    | AnswerNotSet          // "Waiting for partner to set the correct answer"
    | MessageTooLong        // "Message must be 500 characters or less"
    | NoteNotFound          // "Note not found"
    | DateIdeaNotFound      // "Date idea not found"
    | MemoryNotFound        // "Memory not found or you don't have permission to delete it"
    | InvalidMood           // "Mood must be one of: ..."
  {
    /** The HTTP status code the handler answers with. */
    function Status(): (code: int)
      ensures code == 400 || code == 404
      ensures code == 404 <==>
        this in {InvalidPairingCode, QuestionNotFound, TriviaNotFound, NoteNotFound, DateIdeaNotFound, MemoryNotFound}
    {
      match this
      case InvalidPairingCode | QuestionNotFound | TriviaNotFound | NoteNotFound
        | DateIdeaNotFound | MemoryNotFound => 404
      case _ => 400
    }
  }

  datatype Result<+T> = Ok(value: T) | Err(error: Error)

  type UserId = string

  /** The partner fields of a user record; `partner_id` and `partner_name` are always set together. */
  datatype PartnerRef = PartnerRef(id: UserId, name: string)

  /** A user record as the authenticated handler sees it (email, password hash and timestamps left out). */
  datatype User = User(id: UserId, name: string, partner: Option<PartnerRef>) {
    predicate Paired() { partner.Some? }
  }

  /**
   * Position of `x` in the non-empty list `xs`, or 0 when it is absent: the
   * source's `table.get(key, table[first_key])` over a table of fixed keys.
   */
  function IndexOrFirst<T(==)>(x: T, xs: seq<T>): (i: nat)
    requires |xs| > 0
    ensures i < |xs|
    ensures x in xs ==> xs[i] == x
    ensures x !in xs ==> i == 0
  {
    if xs[0] == x || |xs| == 1 then 0
    else var j := IndexOrFirst(x, xs[1..]); if xs[1..][j] == x then j + 1 else 0
  }
}
