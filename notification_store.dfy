/** The client's notification store: the notification list, newest first, and an unread
    counter that each action adjusts on its own terms. The counter is not recomputed from the
    list, so whether it keeps matching the list depends on the action and its argument. */
module Notifications {
  import opened Common

  datatype Note = Note(id: string, kind: string, message: string, isRead: bool)

  /** The unread notifications of a list. */
  function Unread(ns: seq<Note>): nat {
    if ns == [] then 0 else (if ns[0].isRead then 0 else 1) + Unread(ns[1..])
  }

  /** No two notifications share an id (the table's key). */
  predicate UniqueIds(ns: seq<Note>) {
    forall i, j :: 0 <= i < j < |ns| ==> ns[i].id != ns[j].id
  }

  /** `notifications.find(n => n.id === id)`. */
  function FirstWith(ns: seq<Note>, id: string): (r: Option<Note>)
    ensures r.Some? <==> exists i :: 0 <= i < |ns| && ns[i].id == id
    ensures r.Some? ==> r.value.id == id && r.value in ns
  {
    if ns == [] then None else if ns[0].id == id then Some(ns[0]) else FirstWith(ns[1..], id)
  }

  /** The first match exists and is unread. */
  predicate FirstUnread(ns: seq<Note>, id: string) {
    FirstWith(ns, id).Some? && !FirstWith(ns, id).value.isRead
  }

  /** The `map` of `markAsRead`: every entry with the id becomes read. */
  function MarkedRead(ns: seq<Note>, id: string): (r: seq<Note>)
    ensures |r| == |ns|
    ensures forall i :: 0 <= i < |ns| ==> r[i] == if ns[i].id == id then ns[i].(isRead := true) else ns[i]
  {
    if ns == [] then [] else [if ns[0].id == id then ns[0].(isRead := true) else ns[0]] + MarkedRead(ns[1..], id)
  }

  /** The `map` of `markAllAsRead`. */
  function AllRead(ns: seq<Note>): (r: seq<Note>)
    ensures |r| == |ns|
    ensures forall i :: 0 <= i < |ns| ==> r[i] == ns[i].(isRead := true)
  {
    if ns == [] then [] else [ns[0].(isRead := true)] + AllRead(ns[1..])
  }

  /** The `filter` of `removeNotification`: every entry with the id goes. */
  function Without(ns: seq<Note>, id: string): (r: seq<Note>)
    ensures |r| <= |ns|
    ensures forall i :: 0 <= i < |r| ==> r[i].id != id && r[i] in ns
    ensures forall i :: 0 <= i < |ns| && ns[i].id != id ==> ns[i] in r
  {
    if ns == [] then [] else (if ns[0].id == id then [] else [ns[0]]) + Without(ns[1..], id)
  }

  /** Removal keeps the order of what remains: it works piece by piece over a split list. */
  lemma {:induction false} WithoutKeepsOrder(a: seq<Note>, b: seq<Note>, id: string)
    ensures Without(a + b, id) == Without(a, id) + Without(b, id)
  {
    if a == [] {
      assert a + b == b;
    } else {
      assert (a + b)[1..] == a[1..] + b;
      WithoutKeepsOrder(a[1..], b, id);
    }
  }

  /** The counter agrees with the list. */
  predicate Consistent(ns: seq<Note>, count: int) {
    count == Unread(ns)
  }

  lemma {:induction false} UnreadOfAbsent(ns: seq<Note>, id: string)
    requires FirstWith(ns, id).None?
    ensures MarkedRead(ns, id) == ns && Without(ns, id) == ns
  {
    if ns != [] {
      UnreadOfAbsent(ns[1..], id);
    }
  }

  /** With unique ids, marking one notification read lowers the unread number by one exactly
      when that notification exists and was unread, and leaves it otherwise. */
  lemma {:induction false} MarkedReadUnread(ns: seq<Note>, id: string)
    requires UniqueIds(ns)
    ensures Unread(MarkedRead(ns, id)) == Unread(ns) - (if FirstUnread(ns, id) then 1 else 0)
  {
    if ns != [] {
      if ns[0].id == id {
        assert FirstWith(ns[1..], id).None? by {
          forall i | 0 <= i < |ns[1..]| ensures ns[1..][i].id != id {
            assert ns[1..][i] == ns[i + 1];
          }
        }
        UnreadOfAbsent(ns[1..], id);
      } else {
        MarkedReadUnread(ns[1..], id);
      }
    }
  }

  /** With unique ids, removing a notification lowers the unread number by one exactly when
      that notification exists and was unread. */
  lemma {:induction false} WithoutUnread(ns: seq<Note>, id: string)
    requires UniqueIds(ns)
    ensures Unread(Without(ns, id)) == Unread(ns) - (if FirstUnread(ns, id) then 1 else 0)
  {
    if ns != [] {
      if ns[0].id == id {
        assert FirstWith(ns[1..], id).None? by {
          forall i | 0 <= i < |ns[1..]| ensures ns[1..][i].id != id {
            assert ns[1..][i] == ns[i + 1];
          }
        }
        UnreadOfAbsent(ns[1..], id);
        assert Without(ns, id) == ns[1..];
        assert FirstWith(ns, id) == Some(ns[0]);
      } else {
        WithoutUnread(ns[1..], id);
      }
    }
  }

  lemma {:induction false} AllReadUnread(ns: seq<Note>)
    ensures Unread(AllRead(ns)) == 0
  {
    if ns != [] {
      AllReadUnread(ns[1..]);
    }
  }

  /** `markAsRead` of an id that is absent or already read still lowers a positive counter,
      so from a consistent state it leaves the counter one below the list's unread number. */
  lemma MarkAsReadDrifts(ns: seq<Note>, count: int, id: string)
    requires UniqueIds(ns) && Consistent(ns, count) && count > 0 && !FirstUnread(ns, id)
    ensures !Consistent(MarkedRead(ns, id), count - 1)
    ensures Unread(MarkedRead(ns, id)) == count
  {
    MarkedReadUnread(ns, id);
  }

  class NotificationStore {
    var notifications: seq<Note>
    var unreadCount: int

    constructor ()
      ensures notifications == [] && unreadCount == 0
      ensures Consistent(notifications, unreadCount)
    {
      notifications, unreadCount := [], 0;
    }

    method SetNotifications(ns: seq<Note>)
      modifies this`notifications
      ensures notifications == ns
    {
      notifications := ns;
    }

    /** Prepends the notification and counts it as unread, whether or not it is; the counter
        stays consistent exactly when the new notification is unread. */
    method AddNotification(n: Note)
      modifies this
      ensures notifications == [n] + old(notifications)
      ensures unreadCount == old(unreadCount) + 1
      ensures Consistent(old(notifications), old(unreadCount)) ==> (Consistent(notifications, unreadCount) <==> !n.isRead)
    {
      assert ([n] + notifications)[1..] == notifications;
      notifications := [n] + notifications;
      unreadCount := unreadCount + 1;
    }

    /** Marks the entries with the id read, and always lowers the counter, never below zero:
        with unique ids the counter stays consistent when the notification was unread. */
    method MarkAsRead(id: string)
      modifies this
      ensures notifications == MarkedRead(old(notifications), id)
      ensures unreadCount == if old(unreadCount) - 1 > 0 then old(unreadCount) - 1 else 0
      ensures UniqueIds(old(notifications)) && Consistent(old(notifications), old(unreadCount)) && FirstUnread(old(notifications), id) ==>
                Consistent(notifications, unreadCount)
    {
      if UniqueIds(notifications) {
        MarkedReadUnread(notifications, id);
      }
      notifications := MarkedRead(notifications, id);
      unreadCount := if unreadCount - 1 > 0 then unreadCount - 1 else 0;
    }

    method MarkAllAsRead()
      modifies this
      ensures notifications == AllRead(old(notifications))
      ensures unreadCount == 0
      ensures Consistent(notifications, unreadCount)
    {
      AllReadUnread(notifications);
      notifications := AllRead(notifications);
      unreadCount := 0;
    }

    /** Removes every entry with the id; the counter drops by one only when the first match
        was unread, with no floor at zero. With unique ids it stays consistent. */
    method RemoveNotification(id: string)
      modifies this
      ensures notifications == Without(old(notifications), id)
      ensures unreadCount == old(unreadCount) - (if FirstUnread(old(notifications), id) then 1 else 0)
      ensures UniqueIds(old(notifications)) && Consistent(old(notifications), old(unreadCount)) ==>
                Consistent(notifications, unreadCount)
    {
      var first := FirstWith(notifications, id);
      if UniqueIds(notifications) {
        WithoutUnread(notifications, id);
      }
      unreadCount := if first.Some? && !first.value.isRead then unreadCount - 1 else unreadCount;
      notifications := Without(notifications, id);
    }

    method ClearAll()
      modifies this
      ensures notifications == [] && unreadCount == 0
      ensures Consistent(notifications, unreadCount)
    {
      notifications, unreadCount := [], 0;
    }

    method SetUnreadCount(count: int)
      modifies this`unreadCount
      ensures unreadCount == count
    {
      unreadCount := count;
    }
  }
}
