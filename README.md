# Couples app backend — a Dafny model

This project models the rules of the backend of a couples app. The backend is
one FastAPI service, `backend/server.py`, that stores its data in MongoDB. Two
users pair up with a six-character code. They then share:

- a daily question, whose answers stay hidden from each partner until both have answered;
- answer streaks, with milestones;
- a "how well do you know me" trivia game, with scores;
- love notes;
- date ideas, and a memory timeline;
- daily mood check-ins.

The text of questions, trivia and date ideas comes from a language model.
Fixed parsers read the model's reply, and built-in fallbacks replace a reply
that is unusable.

## How the model is built

- Each handler is a pure function. It goes from the stored collections to the
  new collections and the response, or to the rejection the handler raises
  (`Common.Error`, with its HTTP status).
- Next to each group of functions, a class holds the collections as fields.
  Its `Handle…` methods update those fields in place, following the handler
  step by step. Each method is proved to have exactly the effect of its
  function, and to keep the collection invariants.
- MongoDB collections are sequences in insertion order, so `find_one`,
  `update_one` and `delete_one` act on the first match. The exception is
  collections keyed by user id, which are maps.
- The parsing loops of the two reply parsers are methods with `while` loops,
  proved against left-fold specification functions. So is the milestone loop
  of `update_streak`.
- Everything the handlers take from the outside world is a parameter: the
  current date and time, fresh uuids, the language model's reply (None when
  the call failed) and the random choices.
- Dates are `Calendar.Date` values. A difference in days is a difference of
  `Calendar.Ordinal`, which is Python's `date.toordinal()`.

### Where the model follows the code rather than the obvious reading

- A trivia guess is right only when it is exactly equal to the stored answer,
  case-sensitively (`server.py:841`).
- The correct trivia answer can be set again, and the last one wins
  (`server.py:820-823`; `Trivia.SetAnswerTwice`).
- A second guess by the same user replaces the first and is scored again
  (`server.py:845-860`; `Trivia.RepeatedRightGuessScoresTwice`).
- Several handlers never check that the caller belongs to the pair of the
  record they change. These are `submit_answer`, `add_reaction`,
  `set_trivia_answer` apart from its subject check, `submit_trivia_guess`, and
  both date-idea toggles. The model does not add such checks.
- `get_sent_notes`, `mark_note_read`, `get_unread_count`, `delete_memory` and
  all three mood handlers work without a partner. So does the model.

## Model

| member | source | states |
|---|---|---|
| Common.Error.Status | backend/server.py:420-431 | Every rejection answers 400 or 404, and 404 exactly for the "not found" rejections |
| Text.StripResult | backend/server.py:721-725 | `strip()` leaves no whitespace at either end and returns a contiguous middle of its input |
| Text.JoinSplit | backend/server.py:721 | Splitting on a separator and joining again gives back the string |
| Text.SplitJoin | backend/server.py:721 | Splitting the join of separator-free pieces gives back the pieces |
| Text.Split | backend/server.py:721 | `split(sep)` gives at least one piece and no piece contains the separator |
| Text.IndexOf | backend/server.py:996 | The position of the first occurrence of a character, or the length when there is none |
| Text.RemoveAll | backend/server.py:727 | `replace(k, "")` never makes a string longer |
| Text.RemoveAllPrefix | backend/server.py:727 | `replace(k, "")` on a line that starts with `k` and has no other occurrence of it leaves the rest of the line |
| Text.AfterFirst | backend/server.py:996 | `split(":", 1)[1]` is the suffix after the first colon, and no colon comes before it |
| Text.Upper | backend/server.py:422 | `upper()` maps every character and keeps the length |
| PairKey.Key | backend/server.py:470-471 | The pair key is the two ids joined by `_`, in one order or the other |
| PairKey.KeySymmetric | backend/server.py:470-471 | The key for (A, B) equals the key for (B, A) |
| PairKey.KeyOrdered | backend/server.py:470 | The smaller id in Python's string order comes first |
| PairKey.BelowTotal | backend/server.py:470 | Python's string order is total on distinct strings |
| PairKey.BelowAsymmetric | backend/server.py:470 | Python's string order is asymmetric |
| PairKey.SplitKeyOfKey | backend/server.py:470-471 | For ids without underscores, the key can be read back into the sorted pair |
| PairKey.KeyIdentifiesPair | backend/server.py:470-471 | For ids without underscores, two keys are equal exactly when they name the same two users |
| Calendar.DayOfYear | backend/server.py:458 | `tm_yday` is between 1 and the length of the year |
| Calendar.OrdinalInjective | backend/server.py:643 | Different valid dates have different ordinals, so a difference of 0 days means the same date |
| Calendar.OrdinalNextDay | backend/server.py:643 | The calendar day after a date is a valid date one ordinal later |
| Calendar.DifferenceOfOne | backend/server.py:643-647 | A difference of exactly one day holds exactly when the later date is the calendar day after the earlier |
| Calendar.OrdinalNewYear | backend/server.py:643 | New Year's Day is one ordinal after the last day of the year before |
| Calendar.DayOfYearNextDay | backend/server.py:458 | Within a year, the next day has the next `tm_yday` |
| QuestionText.CategoryForDate | backend/server.py:456-459 | The category of a date is one of the seven categories |
| QuestionText.CategoryRotatesDaily | backend/server.py:456-459 | Within a year, the category index moves one step, modulo 7, each day |
| QuestionText.CategoryPosition | backend/server.py:327 | A known category selects its own built-in questions; an unknown one selects "emotional" |
| QuestionText.FallbackQuestions | backend/server.py:290-326 | Every category has three built-in questions |
| QuestionText.QuestionFromReply | backend/server.py:285-287 | A reply over 10 characters is used with its surrounding quotes removed: the text is no longer than the reply and neither starts nor ends with a single quote. Otherwise the text is one of the category's built-in questions |
| QuestionText.UnquotedReplyKept | backend/server.py:285-286 | A reply over 10 characters that neither starts nor ends with a quote is used unchanged |
| TriviaReply.Parse | backend/server.py:719-732 | An accepted reply has a non-empty question and exactly four options |
| TriviaReply.ParseReply | backend/server.py:719-732 | The parsing code, with its loop, returns exactly `Parse` of the reply |
| TriviaReply.ScanLines | backend/server.py:724-729 | The loop over the lines computes the left fold of the one-line step |
| TriviaReply.ScanTrimmed | backend/server.py:725-729 | Every question and option the loop keeps is stripped |
| TriviaReply.ParseTrimmed | backend/server.py:731-732 | An accepted question and its four options have no surrounding whitespace |
| TriviaReply.ParseFormat | backend/server.py:719-732 | A reply written in the requested `QUESTION:`/`A:`…`D:` format is read back exactly |
| TriviaReply.ParseEmpty | backend/server.py:719 | The empty reply is not accepted, which agrees with the code skipping it as falsy |
| TriviaReply.Fallback | backend/server.py:737-764 | Whatever the category, the built-in question is non-empty and has four options |
| TriviaReply.TriviaFor | backend/server.py:719-764 | A parsed reply is used as it is; otherwise the category's built-in question is used; either way there are four options |
| DateIdeaReply.TipLineColon | backend/server.py:995-996 | A tip line's first colon is at position 4, so the split always has a second part |
| DateIdeaReply.Parse | backend/server.py:982-999 | An accepted idea has a non-empty title, a non-empty description and at least one tip |
| DateIdeaReply.ParseReply | backend/server.py:982-999 | The parsing code, with its loop, returns exactly `Parse` of the reply |
| DateIdeaReply.ScanLines | backend/server.py:989-996 | The loop over the lines computes the left fold of the one-line step |
| DateIdeaReply.ParseFormat | backend/server.py:982-999 | A reply written in the requested `TITLE:`/`DESCRIPTION:`/`TIP1-3:` format is read back exactly |
| DateIdeaReply.ParseEmpty | backend/server.py:982 | The empty reply is not accepted, which agrees with the code skipping it as falsy |
| DateIdeaReply.Fallback | backend/server.py:1004-1011 | The built-in idea has a title, a description and three tips; an unknown mood uses "romantic" |
| DateIdeaReply.DateIdeaFor | backend/server.py:982-1011 | A parsed reply is used as it is; otherwise the mood's built-in idea is used; either way there are a title, a description and tips |
| Pairing.CodeFrom | backend/server.py:394-395 | A generated code has six characters, all upper-case letters or digits |
| Pairing.CodeIsUpper | backend/server.py:395 | Upper-casing a generated code leaves it unchanged, so entering it as shown finds it |
| Pairing.FindCode | backend/server.py:422 | The first stored code equal to the input, or none |
| Pairing.WithoutOwner | backend/server.py:402 | Deleting a user's codes keeps exactly the other users' codes |
| Pairing.GenerateCode | backend/server.py:398-415 | A paired caller is refused with no change; otherwise the caller's old codes are removed and the new code, expiring in 24 hours, is appended |
| Pairing.GenerateCodeValid | backend/server.py:398-415 | After generating, the new code is the only code the caller owns, and the state stays valid |
| Pairing.LinkUsers | backend/server.py:436-443 | Linking updates records but adds and removes no users |
| Pairing.ConnectAsWritten | backend/server.py:417-448 | The connect handler as written neither adds nor removes users (its other effects are pinned down by the concrete run in `ConnectAsWrittenBreaksSymmetry`) |
| Pairing.Connect | backend/server.py:417-448 | Each rejection comes with its own error, in the handler's order: an already-paired caller (`AlreadyPaired`), then no code equal to the upper-cased input (`InvalidPairingCode`, 404), then an expired code (`PairingCodeExpired`, and that first matching code is deleted), then the caller's own code (`SelfPairing`), then a code whose owner is paired by now (`CodeOwnerPaired`). Every rejection except the expired one leaves the state unchanged. Success holds exactly when none applies, and deletes the code |
| Pairing.ConnectPairs | backend/server.py:433-445 | On success, caller and owner name each other as partners, and every other user is unchanged |
| Pairing.ConnectValid | backend/server.py:417-448 | Partner links stay symmetric after any connect attempt |
| Pairing.ConnectAsWrittenBreaksSymmetry | backend/server.py:417-448 | The code as written lets a third user take a partner's partner, which leaves the partner relation asymmetric |
| Pairing.PairingStore.HandleGenerate | backend/server.py:398-415 | The in-place handler has the effect of `GenerateCode` and keeps the state valid |
| Pairing.PairingStore.HandleConnect | backend/server.py:417-448 | The in-place handler has the effect of `Connect` and keeps the state valid |
| Questions.ProjectReveals | backend/server.py:497-512 | `both_answered` holds exactly when both answered; the partner's answer and time are shown exactly then; otherwise the partner's reaction is hidden; the caller's own answer and reaction are always shown |
| Questions.HiddenUntilAnswered | backend/server.py:497-512 | Until I answer, my partner's answer and reaction do not change what I see |
| Questions.RecordAnswer | backend/server.py:520-537 | An answer over 500 characters, or a second answer, is refused; otherwise only the caller's entry in `answers` is added |
| Questions.AnswersCommute | backend/server.py:534-537 | The two partners' answers give the same question whichever comes first |
| Questions.BothAnsweredRevealed | backend/server.py:539-562 | Once both have answered, each sees the other's answer |
| Questions.GetToday | backend/server.py:461-513 | An unpaired caller is refused and nothing changes. When the pair has a question for today, nothing changes and the caller gets `Project` of it, so the reveal rules of `ProjectReveals` apply. Otherwise a question for today is appended: the fresh id, the category of the day, the text from the reply or a built-in question, and no answers or reactions; the caller gets `Project` of it. Streaks never change |
| Questions.GetTodayValid | backend/server.py:473-492 | Creating the day's question keeps ids unique and keeps at most one question per pair and day |
| Questions.GetTodayIdempotent | backend/server.py:473-492 | Asking again on the same day returns the same question and changes nothing |
| Questions.SubmitAnswer | backend/server.py:515-563 | These are refused in this order: an unpaired caller, an answer over 500 characters, an unknown id, a second answer. Each rejection holds exactly under its condition and leaves the state unchanged, so a first valid answer to a found question is always accepted. On success only that question changes, and only by gaining the caller's answer. The caller gets `Project` of the updated question. If the partner had already answered, both streaks advance to the question's date, the caller's first; otherwise no streak changes |
| Questions.SubmitAnswerValid | backend/server.py:515-545 | Submitting keeps the questions consistent and every streak record valid |
| Questions.SubmitAnswerStreaksMove | backend/server.py:541-545 | Streaks change only when the answer completes the pair |
| Questions.SubmitAnswerStreaksOthers | backend/server.py:543-545 | No streak other than the two partners' changes |
| Questions.AddReaction | backend/server.py:565-581 | A reaction outside the five is refused; an unknown question is not found; otherwise the caller's reaction is set, replacing any earlier one, and nothing else changes |
| Questions.AddReactionValid | backend/server.py:565-581 | Reacting keeps the state consistent |
| Questions.HistoryHidden | backend/server.py:600-619 | Every view in the history comes from a stored question of the pair with the same id. The partner's answer shows exactly when both have answered that question, and is then the partner's stored answer |
| Questions.History | backend/server.py:583-621 | An unpaired caller is refused. Otherwise the views are exactly `Project` of the pair's stored questions, so each one hides the partner's answer until both have answered |
| Questions.QuestionStore.HandleGetToday | backend/server.py:461-513 | The in-place handler has the effect of `GetToday` and keeps the state consistent |
| Questions.QuestionStore.HandleSubmit | backend/server.py:515-563 | The in-place handler, calling the streak loop for each partner, has the effect of `SubmitAnswer` and keeps the state consistent |
| Questions.QuestionStore.HandleReact | backend/server.py:565-581 | The in-place handler has the effect of `AddReaction` and keeps the state consistent |
| Questions.QuestionStore.HandleGetStreak | backend/server.py:669-686 | The handler returns the caller's stored streak record, or zeros with no last date and no milestones when none is stored |
| Questions.BumpStreakValid | backend/server.py:543-545 | Updating one partner's streak keeps every stored streak record valid |
| Streaks.AdvanceCases | backend/server.py:641-657 | Same date: the record is unchanged. Next calendar day: the streak grows by one. Any other date, or no earlier date: the streak is 1. The longest streak never decreases and, after a move, is at least the current one |
| Streaks.AddMilestonesSpec | backend/server.py:659-661 | The milestone loop keeps what was reached, in front; adds only milestones reached; adds every milestone reached; never adds one twice |
| Streaks.MovedMilestones | backend/server.py:656-661 | After a move, the milestones are distinct and from the list, bounded by the longest streak, and include every milestone up to the current streak |
| Streaks.AdvanceValid | backend/server.py:628-667 | An update keeps a record valid and keeps every milestone already reached, in front |
| Streaks.FreshValid | backend/server.py:631-637 | The record used when none is stored is valid |
| Streaks.MovedValid | backend/server.py:650-661 | Moving a valid streak to a new current value keeps it valid and keeps the earlier milestones in front |
| Streaks.UpdateStreak | backend/server.py:628-667 | The method, with its milestone loop, returns exactly the record the streak rules give |
| Streaks.GetStreak | backend/server.py:669-686 | A missing record reads as zeros and no milestones; otherwise the stored record |
| Trivia.SetAnswer | backend/server.py:814-823 | Refused unless the caller is the subject and the answer is one of the options; otherwise only the correct answer changes |
| Trivia.SetAnswerTwice | backend/server.py:820-823 | Setting the answer twice leaves the second answer |
| Trivia.Grade | backend/server.py:834-869 | Refused when the caller is the subject, then when no answer is set. Otherwise the guess is right exactly when it equals the answer, and earns 10 points or 0. The caller's guess is recorded, replacing an earlier one. The response echoes the question's id and text, the guess and the right answer |
| Trivia.AddToScoreValid | backend/server.py:856-860 | Scoring a guess adds one question, never lowers the score, and keeps score = 10 × right guesses ≤ 10 × questions |
| Trivia.RepeatedRightGuessScoresTwice | backend/server.py:845-860 | The same right guess made twice scores twice |
| Trivia.Create | backend/server.py:766-805 | An unpaired caller is refused. Otherwise one question is appended for the pair, and the response shows it. It is about the partner or the caller, as chosen, and carries that person's name and the chosen category. Its text and four options are the parsed reply or the category's built-in question (`TriviaFor`). It has no answer and no guesses |
| Trivia.CreateValid | backend/server.py:786-797 | Creating keeps ids unique and keeps every question at four options |
| Trivia.SetTriviaAnswer | backend/server.py:807-825 | An unknown id is not found. For a found question, success holds exactly when `SetAnswer` accepts, and otherwise `SetAnswer`'s rejection is returned. On success only that question's answer changes |
| Trivia.SetTriviaAnswerValid | backend/server.py:807-825 | Setting an answer keeps every set answer one of its question's options |
| Trivia.SubmitGuess | backend/server.py:827-869 | An unknown id is not found. For a found question, success holds exactly when `Grade` accepts, and otherwise `Grade`'s rejection is returned. On success the graded question is stored, and the guesser's score for the pair is incremented, starting from zeros when missing |
| Trivia.SubmitGuessValid | backend/server.py:827-869 | Guessing keeps the state consistent, including every score record |
| Trivia.Scores | backend/server.py:871-890 | An unpaired caller is refused; otherwise both partners' records for the pair, missing ones as zeros, with the question counts added |
| Trivia.ScoresValid | backend/server.py:871-890 | Each partner's score is ten points per right guess, and right guesses never exceed the questions counted |
| Trivia.ScoresSymmetric | backend/server.py:878-889 | The two partners see the same board with the sides swapped |
| Trivia.TriviaStore.HandleCreate | backend/server.py:766-805 | The in-place handler has the effect of `Create` and keeps the state consistent |
| Trivia.TriviaStore.HandleSetAnswer | backend/server.py:807-825 | The in-place handler has the effect of `SetTriviaAnswer` and keeps the state consistent |
| Trivia.TriviaStore.HandleGuess | backend/server.py:827-869 | The in-place handler has the effect of `SubmitGuess` and keeps the state consistent |
| Notes.Send | backend/server.py:895-917 | An unpaired caller is refused, then a message over 500 characters; otherwise an unread note to the partner is appended |
| Notes.MarkRead | backend/server.py:940-950 | Not found exactly when no note has the id and is addressed to the caller; otherwise that note is marked read |
| Notes.UnreadCount | backend/server.py:952-958 | The count is zero exactly when no note to the user is unread |
| Notes.SendCounts | backend/server.py:895-958 | Sending raises the partner's unread count by one and nobody else's |
| Notes.MarkReadCounts | backend/server.py:940-958 | Marking read lowers the caller's count by one if the note was unread, and changes nobody else's |
| Notes.MarkReadIdempotent | backend/server.py:940-950 | Marking the same note twice leaves the notes as marking it once |
| Notes.Received | backend/server.py:919-929 | An unpaired caller is refused; otherwise exactly the notes addressed to the caller |
| Notes.Sent | backend/server.py:931-938 | Exactly the notes the caller sent |
| Notes.NoteStore.HandleSend | backend/server.py:895-917 | The in-place handler has the effect of `Send` and raises the partner's unread count by one |
| Notes.NoteStore.HandleMarkRead | backend/server.py:940-950 | The in-place handler has the effect of `MarkRead` |
| DateIdeas.Generate | backend/server.py:1013-1042 | An unpaired caller is refused. Otherwise one idea is appended for the pair, with the requested budget, mood and place. Its title, description and tips are those of the parsed reply or the mood's built-in idea (`DateIdeaFor`). Neither flag is set |
| DateIdeas.List | backend/server.py:1044-1059 | An unpaired caller is refused; otherwise exactly the pair's ideas |
| DateIdeas.ToggleFavorite | backend/server.py:1061-1073 | Not found exactly when no idea has the id; otherwise that idea's favourite flag flips and the new flag is returned |
| DateIdeas.ToggleCompleted | backend/server.py:1075-1087 | Not found exactly when no idea has the id; otherwise that idea's completed flag flips and the new flag is returned |
| DateIdeas.ToggleFavoriteTwice | backend/server.py:1061-1073 | Toggling twice restores every idea |
| DateIdeas.ToggleCompletedTwice | backend/server.py:1075-1087 | Toggling twice restores every idea |
| DateIdeas.TogglesCommute | backend/server.py:1061-1087 | The two flags are independent: toggling them in either order gives the same ideas |
| DateIdeas.DateIdeaStore.HandleGenerate | backend/server.py:1013-1042 | The in-place handler has the effect of `Generate` |
| DateIdeas.DateIdeaStore.HandleToggleFavorite | backend/server.py:1061-1073 | The in-place handler has the effect of `ToggleFavorite` |
| DateIdeas.DateIdeaStore.HandleToggleCompleted | backend/server.py:1075-1087 | The in-place handler has the effect of `ToggleCompleted` |
| Memories.Create | backend/server.py:1092-1117 | An unpaired caller is refused; otherwise the memory is appended for the pair, with the caller as its creator |
| Memories.List | backend/server.py:1119-1134 | An unpaired caller is refused; otherwise exactly the pair's memories |
| Memories.ListSameForPartners | backend/server.py:1119-1134 | Both partners see the same memories |
| Memories.Delete | backend/server.py:1136-1146 | Not found exactly when no memory has the id and was created by the caller; otherwise that memory is removed |
| Memories.DeleteOnlyOwn | backend/server.py:1136-1146 | A delete removes exactly one memory, one the caller created, and keeps every memory of anyone else |
| Memories.MemoryStore.HandleCreate | backend/server.py:1092-1117 | The in-place handler has the effect of `Create` |
| Memories.MemoryStore.HandleDelete | backend/server.py:1136-1146 | The in-place handler has the effect of `Delete` |
| Moods.Submit | backend/server.py:1153-1180 | A mood outside the five is refused; otherwise today's earlier check-in is rewritten under its own id, or a new one is appended |
| Moods.SubmitValid | backend/server.py:1153-1180 | A check-in keeps ids unique and one check-in per user per day, and today's check-in is the one just written |
| Moods.SubmitTwiceKeepsId | backend/server.py:1161-1176 | Checking in twice on one day keeps one check-in, under the first id, holding the second mood |
| Moods.TodayMoods | backend/server.py:1182-1197 | The caller's check-in for today, and the partner's when paired. Each is present exactly when one exists, and is then the first such stored check-in, unchanged |
| Moods.SubmitThenToday | backend/server.py:1153-1197 | After a check-in, today's mood shows it |
| Moods.History | backend/server.py:1199-1213 | Exactly the check-ins of the caller and, when paired, of the partner |
| Moods.MoodStore.HandleSubmit | backend/server.py:1153-1180 | The in-place handler has the effect of `Submit` and keeps the check-ins consistent |

## Left out

- Registration, login, `get_me`, JWT tokens and bcrypt hashing (`server.py:205-230`, `:333-392`). They are authentication and foreign cryptography; handlers receive the authenticated user as a value.
- The language model calls, the prompt texts and the previous questions sent to the model. The reply is a parameter.
- `random.choice` and `random.choices` (the code characters, the built-in question, the trivia subject and the category). The choices are parameters.
- `datetime.now`, `strptime`, `isoformat` and the uuid generator. Dates, times and fresh ids are parameters. Times are integers, and code expiry compares them in seconds.
- The sorting and result limits of the list endpoints (`to_list(50)`, `to_list(100)`, `days * 2`). `Questions.History`, `Notes.Received`, `Notes.Sent`, `DateIdeas.List`, `Memories.List` and `Moods.History` state which documents are returned, not their order or their count.
- Pairing.ConnectAsWritten: its contract states only that no user is added or removed. Its behaviour on the run that breaks symmetry is pinned down step by step in `Pairing.ConnectAsWrittenBreaksSymmetry`, and the rest of the model uses the corrected `Pairing.Connect`.
- Questions.AddReaction: does not model the driver quirk where re-sending the same reaction modifies nothing and is reported as 404. The model says success whenever the question exists.
- Notes.MarkRead: does not model the driver quirk where marking an already-read note modifies nothing and is reported as 404. The model says success whenever the note exists and is addressed to the caller.
- Text.Upper: upper-cases ASCII letters only. Python's `str.upper` also maps other letters. Generated codes use only ASCII letters and digits.
- Falsy values the model does not carry: an empty-string `partner_id` counts as unpaired in the source, while the model's partner is an `Option`. A request whose optional budget, mood or place is `None` is not modelled; these are plain strings.
- Concurrency: the check-then-set in `submit_answer` and the other read-modify-write handlers run as single steps.
- FastAPI routing, Pydantic validation, response field renaming and the CORS and startup plumbing.

## Findings

| source | as written | input that shows it | evidently intended | confidence | as-written member | corrected member |
|---|---|---|---|---|---|---|
| backend/server.py:417-448 | `connect_with_partner` never checks whether the code's owner already has a partner, and pairing does not delete the caller's own codes | Unpaired users x, y and z. x and y each generate a code. x enters y's code, so x and y are partners, but x's code is still stored. z then enters x's code: x's partner becomes z, while y's partner is still x | Partner links stay symmetric, so a code whose owner is paired by now is refused | not executed | Pairing.ConnectAsWrittenBreaksSymmetry | Pairing.Connect |
