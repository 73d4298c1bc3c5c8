/**
  The external-link store of the React client
  (frontend/src/context/ExternalLinkContext.tsx).
 */
module ExternalLinkContext {
  import opened Wrappers
  import opened Text
  import opened KeyedLists
  import opened Http

  /** A link of a lesson, as the server returns it. */
  datatype ExternalLink = ExternalLink(id: int, link: string, description: string, lessonId: int)

  function LinkId(l: ExternalLink): int { l.id }

  /** The guard of `addLink`: a lesson id of 0 or an empty link or
      description is refused. */
  predicate Complete(lessonId: int, link: string, description: string) {
    lessonId != 0 && link != "" && description != ""
  }

  /** The form `addLink` posts. */
  function LinkForm(lessonId: int, link: string, description: string): FormData {
    [("lesson_id", IntToString(lessonId)), ("description", description), ("link", link)]
  }

  /** Editing an entry keeps the length and the ids in place, and touches no
      entry with another id. */
  lemma EditKeepsOthers(links: seq<ExternalLink>, id: int, edited: ExternalLink)
    requires edited.id == id
    ensures var r := ReplaceId(links, id, edited, LinkId);
      |r| == |links| &&
      (forall k :: 0 <= k < |links| ==> r[k].id == links[k].id) &&
      (forall k :: 0 <= k < |links| && links[k].id != id ==> r[k] == links[k]) &&
      (forall k :: 0 <= k < |links| && links[k].id == id ==> r[k] == edited)
  {
  }

  class LinkStore {
    var links: seq<ExternalLink>
    var loading: bool
    var error: Option<string>
    var alerts: seq<string>

    constructor ()
      ensures links == [] && !loading && error.None? && alerts == []
    {
      links := [];
      loading := false;
      error := None;
      alerts := [];
    }

    /** `fetchLinks`: without a token only the error is set; a reply
        replaces the list (none when absent); a failure sets the error. */
    method FetchLinks(token: Option<string>, reply: Reply<Option<seq<ExternalLink>>>) returns (requested: bool)
      modifies this
      ensures requested == HasToken(token) && alerts == old(alerts)
      ensures !requested ==>
        error == Some("No access token available") && links == old(links) && loading == old(loading)
      ensures requested ==> !loading
      ensures requested && reply.Ok? ==> links == OrEmpty(reply.body) && error == old(error)
      ensures requested && reply.Failed? ==> links == old(links) && error == Some("Failed to fetch External Links")
    {
      if !HasToken(token) {
        error := Some("No access token available");
        return false;
      }
      requested := true;
      loading := true;
      match reply {
        case Ok(body) =>
          links := OrEmpty(body);
        case Failed(_) =>
          error := Some("Failed to fetch External Links");
      }
      loading := false;
    }

    /** `fetchLinkById`: the link, or the error rethrown after recording
        "Failed to fetch link". No token check is made. */
    method FetchLinkById(reply: Reply<ExternalLink>) returns (r: Result<ExternalLink, string>)
      modifies this
      ensures links == old(links) && alerts == old(alerts) && !loading
      ensures reply.Ok? ==> r == Success(reply.body) && error == old(error)
      ensures reply.Failed? ==> r == Failure(reply.message) && error == Some("Failed to fetch link")
    {
      loading := true;
      match reply {
        case Ok(body) =>
          r := Success(body);
        case Failed(message) =>
          error := Some("Failed to fetch link");
          r := Failure(message);
      }
      loading := false;
    }

    /** `addLink`: an incomplete link only raises an alert and nothing is
        sent; otherwise the returned link is appended at the end, or a
        failure raises an alert. */
    method AddLink(lessonId: int, link: string, description: string, reply: Reply<ExternalLink>)
      returns (sent: Option<FormData>)
      modifies this
      ensures loading == old(loading) && error == old(error)
      ensures !Complete(lessonId, link, description) ==>
        (sent == None && links == old(links) &&
         alerts == old(alerts) + ["All fields are required to add a external link."])
      ensures Complete(lessonId, link, description) ==> sent == Some(LinkForm(lessonId, link, description))
      ensures Complete(lessonId, link, description) && reply.Ok? ==>
        links == old(links) + [reply.body] && alerts == old(alerts)
      ensures Complete(lessonId, link, description) && reply.Failed? ==>
        (links == old(links) &&
         alerts == old(alerts) + ["An error occurred while adding the external link: " + OrUnknown(reply.message)])
    {
      if !Complete(lessonId, link, description) {
        alerts := alerts + ["All fields are required to add a external link."];
        return None;
      }
      sent := Some(LinkForm(lessonId, link, description));
      match reply {
        case Ok(body) =>
          links := links + [body];
        case Failed(message) =>
          alerts := alerts + ["An error occurred while adding the external link: " + OrUnknown(message)];
      }
    }

    /** `editLink`: every entry with the id is replaced by the returned link;
        a failure is rethrown and the list kept. */
    method EditLink(id: int, reply: Reply<ExternalLink>) returns (thrown: Option<string>)
      modifies this
      ensures loading == old(loading) && error == old(error) && alerts == old(alerts)
      ensures reply.Ok? ==> links == ReplaceId(old(links), id, reply.body, LinkId) && thrown == None
      ensures reply.Failed? ==> links == old(links) && thrown == Some(reply.message)
    {
      match reply {
        case Ok(body) =>
          links := ReplaceId(links, id, body, LinkId);
          thrown := None;
        case Failed(message) =>
          thrown := Some(message);
      }
    }

    /** `deleteLink`: an id not in the list only raises "link not found"; a
        successful request removes every link with that id; a failed one
        raises an alert and keeps the list. */
    method DeleteLink(id: int, succeeded: bool) returns (requested: bool)
      modifies this
      ensures requested == HasId(old(links), id, LinkId)
      ensures loading == old(loading) && error == old(error)
      ensures !requested ==> links == old(links) && alerts == old(alerts) + ["link not found"]
      ensures requested && succeeded ==> links == RemoveId(old(links), id, LinkId) && alerts == old(alerts)
      ensures requested && !succeeded ==>
        (links == old(links) &&
         alerts == old(alerts) + ["An error occurred while deleting the link. Please try again."])
    {
      if !HasId(links, id, LinkId) {
        alerts := alerts + ["link not found"];
        return false;
      }
      requested := true;
      if succeeded {
        links := RemoveId(links, id, LinkId);
      } else {
        alerts := alerts + ["An error occurred while deleting the link. Please try again."];
      }
    }
  }
}
