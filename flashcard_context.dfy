/**
  The flashcard store of the React client
  (frontend/src/context/FlashcardContext.tsx).
 */
module FlashcardContext {
  import opened Wrappers
  import opened Text
  import opened KeyedLists
  import opened Http

  datatype Flashcard = Flashcard(id: int, question: string, answer: string)

  function FlashcardId(f: Flashcard): int { f.id }

  /** The form `addFlashcard` posts. */
  function FlashcardForm(moduleId: int, question: string, answer: string): FormData {
    [("module_id", IntToString(moduleId)), ("question", question), ("answer", answer)]
  }

  class FlashcardStore {
    var flashcards: seq<Flashcard>
    var loading: bool
    var error: Option<string>
    var alerts: seq<string>

    constructor ()
      ensures flashcards == [] && !loading && error.None? && alerts == []
    {
      flashcards := [];
      loading := false;
      error := None;
      alerts := [];
    }

    /** `fetchFlashcards`: without a token only the error is set; a reply
        replaces the list (none when absent); a failure sets the error. */
    method FetchFlashcards(token: Option<string>, reply: Reply<Option<seq<Flashcard>>>) returns (requested: bool)
      modifies this
      ensures requested == HasToken(token) && alerts == old(alerts)
      ensures !requested ==>
        error == Some("No access token available") && flashcards == old(flashcards) && loading == old(loading)
      ensures requested ==> !loading
      ensures requested && reply.Ok? ==> flashcards == OrEmpty(reply.body) && error == old(error)
      ensures requested && reply.Failed? ==> flashcards == old(flashcards) && error == Some("Failed to fetch flashcards")
    {
      if !HasToken(token) {
        error := Some("No access token available");
        return false;
      }
      requested := true;
      loading := true;
      match reply {
        case Ok(body) =>
          flashcards := OrEmpty(body);
        case Failed(_) =>
          error := Some("Failed to fetch flashcards");
      }
      loading := false;
    }

    /** `addFlashcard`: the returned card is appended at the end; a failure
        only raises an alert. */
    method AddFlashcard(moduleId: int, question: string, answer: string, reply: Reply<Flashcard>)
      returns (sent: FormData)
      modifies this
      ensures sent == FlashcardForm(moduleId, question, answer)
      ensures loading == old(loading) && error == old(error)
      ensures reply.Ok? ==> flashcards == old(flashcards) + [reply.body] && alerts == old(alerts)
      ensures reply.Failed? ==>
        (flashcards == old(flashcards) &&
         alerts == old(alerts) + ["An error occurred while adding the flashcard: " + reply.message])
    {
      sent := FlashcardForm(moduleId, question, answer);
      match reply {
        case Ok(body) =>
          flashcards := flashcards + [body];
        case Failed(message) =>
          alerts := alerts + ["An error occurred while adding the flashcard: " + message];
      }
    }

    /** `deleteFlashcard`: an id not in the list only raises "Flashcard not
        found"; a successful request removes every card with that id; a
        failed one raises an alert and keeps the list. */
    method DeleteFlashcard(id: int, succeeded: bool) returns (requested: bool)
      modifies this
      ensures requested == HasId(old(flashcards), id, FlashcardId)
      ensures loading == old(loading) && error == old(error)
      ensures !requested ==> flashcards == old(flashcards) && alerts == old(alerts) + ["Flashcard not found"]
      ensures requested && succeeded ==>
        flashcards == RemoveId(old(flashcards), id, FlashcardId) && alerts == old(alerts)
      ensures requested && !succeeded ==>
        (flashcards == old(flashcards) &&
         alerts == old(alerts) + ["An error occurred while deleting the flashcard. Please try again."])
    {
      if !HasId(flashcards, id, FlashcardId) {
        alerts := alerts + ["Flashcard not found"];
        return false;
      }
      requested := true;
      if succeeded {
        flashcards := RemoveId(flashcards, id, FlashcardId);
      } else {
        alerts := alerts + ["An error occurred while deleting the flashcard. Please try again."];
      }
    }
  }
}
