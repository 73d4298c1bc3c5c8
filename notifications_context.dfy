/**
  The notification feed of the React client
  (frontend/src/context/NotificafionsContext.tsx): the list fetched from the
  server, the messages pushed over the socket, whether the panel is open,
  and the unread counter (null until the first push).
 */
module NotificationsContext {
  import opened Wrappers
  import opened Http

  datatype Notification = Notification(id: int, message: string)

  /** The counter after one more push: `prevCount ? prevCount + 1 : 1`. A
      null or 0 counter restarts at 1. */
  function NextUnread(prev: Option<int>): (n: int)
    ensures prev.None? || prev == Some(0) ==> n == 1
    ensures prev.Some? && prev.value != 0 ==> n == prev.value + 1
  {
    if prev.Some? && prev.value != 0 then prev.value + 1 else 1
  }

  /** The counter after `k` pushes. */
  function UnreadAfter(prev: Option<int>, k: nat): Option<int> {
    if k == 0 then prev else Some(NextUnread(UnreadAfter(prev, k - 1)))
  }

  /** From a cleared counter (null or 0) or a positive one, `k` pushes add
      exactly `k`: the counter counts the pushes since it was cleared. */
  lemma {:induction false} UnreadCountsPushes(prev: Option<int>, k: nat)
    requires prev.None? || prev.value >= 0
    requires k >= 1
    ensures UnreadAfter(prev, k) == Some((if prev.Some? then prev.value else 0) + k)
  {
    if k > 1 {
      UnreadCountsPushes(prev, k - 1);
    }
  }

  class NotificationStore {
    var notifications: seq<Notification>
    var loading: bool
    var isOpen: bool
    var error: Option<string>
    var unread: Option<int>

    constructor ()
      ensures notifications == [] && !loading && !isOpen && error.None? && unread.None?
    {
      notifications := [];
      loading := false;
      isOpen := false;
      error := None;
      unread := None;
    }

    /** `fetchNotifications`: without a token only the error is set; a
        reply replaces the list (none when absent) and opens the panel; a
        failure sets the error. The unread counter is not touched. */
    method FetchNotifications(token: Option<string>, reply: Reply<Option<seq<Notification>>>)
      returns (requested: bool)
      modifies this
      ensures requested == HasToken(token) && unread == old(unread)
      ensures !requested ==>
        (error == Some("No access token available") && notifications == old(notifications) &&
         loading == old(loading) && isOpen == old(isOpen))
      ensures requested ==> !loading
      ensures requested && reply.Ok? ==> notifications == OrEmpty(reply.body) && isOpen && error == old(error)
      ensures requested && reply.Failed? ==>
        (notifications == old(notifications) && isOpen == old(isOpen) &&
         error == Some("Failed to fetch notifications"))
    {
      if !HasToken(token) {
        error := Some("No access token available");
        return false;
      }
      requested := true;
      loading := true;
      match reply {
        case Ok(body) =>
          notifications := OrEmpty(body);
          isOpen := true;
        case Failed(_) =>
          error := Some("Failed to fetch notifications");
      }
      loading := false;
    }

    /** The "notification" socket handler: the message is appended at the
        end, the panel is closed and the unread counter moves on. */
    method Receive(message: Notification)
      modifies this
      ensures notifications == old(notifications) + [message]
      ensures !isOpen && unread == Some(NextUnread(old(unread)))
      ensures loading == old(loading) && error == old(error)
    {
      notifications := notifications + [message];
      isOpen := false;
      unread := Some(NextUnread(unread));
    }
  }
}
