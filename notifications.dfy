/** The toast notification store: an ordered list of active notifications,
    a counter that numbers them, the auto-dismiss timers that are pending,
    and the sequence of snapshots published to subscribers. */
module Notifications {
  import opened Wrappers
  import Builtins

  datatype NotificationType = Success | Error | Warning | Info

  /** An active notification. The identifier is the value of the store's
      counter when the notification was created. */
  datatype Notification = Notification(
    id: nat,
    kind: NotificationType,
    message: string,
    duration: int,
    dismissible: bool)

  /** What a producer passes to `show`; the optional fields may be omitted. */
  datatype NotificationOptions = NotificationOptions(
    kind: NotificationType,
    message: string,
    duration: Option<int>,
    dismissible: Option<bool>)

  /** The duration `show` uses when none is given. */
  const ShowDefaultDuration: int := 3000

  /** The notification `show` builds from its options and a fresh id. */
  function MakeNotification(id: nat, options: NotificationOptions): (n: Notification)
    ensures n.id == id && n.kind == options.kind && n.message == options.message
    ensures options.duration == None ==> n.duration == 3000
    ensures options.duration.Some? ==> n.duration == options.duration.value
    ensures options.dismissible == None ==> n.dismissible
    ensures options.dismissible.Some? ==> n.dismissible == options.dismissible.value
  {
    Notification(id, options.kind, options.message,
                 options.duration.GetOr(ShowDefaultDuration), options.dismissible.GetOr(true))
  }

  /** The default duration of the `success`, `error`, `warning` and `info`
      shortcuts. */
  function ShortcutDuration(kind: NotificationType): int {
    match kind
    case Success => 3000
    case Error => 5000
    case Warning => 4000
    case Info => 3000
  }

  /** The options a shortcut passes to `show`: its own type, the caller's
      duration or the shortcut's default, and always dismissible. */
  function ShortcutOptions(kind: NotificationType, message: string, duration: Option<int>): (o: NotificationOptions)
    ensures o.kind == kind && o.message == message && o.dismissible == Some(true)
    ensures o.duration == Some(duration.GetOr(ShortcutDuration(kind)))
  {
    NotificationOptions(kind, message, Some(duration.GetOr(ShortcutDuration(kind))), Some(true))
  }

  /** A shortcut called without a duration shows a dismissible notification
      with the default duration of its type. */
  lemma ShortcutDefaults(id: nat, kind: NotificationType, message: string)
    ensures var n := MakeNotification(id, ShortcutOptions(kind, message, None));
            && n.kind == kind && n.message == message && n.dismissible
            && n.duration == (if kind == Error then 5000 else if kind == Warning then 4000 else 3000)
  {
  }

  /** An auto-dismiss timer is started only for a positive duration. */
  predicate SchedulesExpiry(n: Notification) {
    n.duration > 0
  }

  /** The list without the notifications carrying `id` (what `dismiss` keeps). */
  function Without(s: seq<Notification>, id: nat): seq<Notification> {
    Builtins.Filter(s, (n: Notification) => n.id != id)
  }

  /** `dismiss(id)` removes exactly the entries with that id. */
  lemma DismissRemovesExactly(s: seq<Notification>, id: nat, n: Notification)
    ensures n in Without(s, id) <==> n in s && n.id != id
  {
    Builtins.FilterMembership(s, (n: Notification) => n.id != id, n);
  }

  /** `dismiss` keeps the remaining entries in their order: it works
      piecewise on any split of the list. */
  lemma DismissKeepsOrder(a: seq<Notification>, b: seq<Notification>, id: nat)
    ensures Without(a + b, id) == Without(a, id) + Without(b, id)
  {
    Builtins.FilterAppend(a, b, (n: Notification) => n.id != id);
  }

  /** Dismissing an id that is not in the list changes nothing. */
  lemma DismissUnknown(s: seq<Notification>, id: nat)
    requires forall i :: 0 <= i < |s| ==> s[i].id != id
    ensures Without(s, id) == s
  {
    Builtins.FilterKeepsAll(s, (n: Notification) => n.id != id);
  }

  /** Dismissing twice is dismissing once. */
  lemma DismissTwice(s: seq<Notification>, id: nat)
    ensures Without(Without(s, id), id) == Without(s, id)
  {
    Builtins.FilterIdempotent(s, (n: Notification) => n.id != id);
  }

  /** After a dismissal the id is gone from the list. */
  lemma DismissedIdIsGone(s: seq<Notification>, id: nat)
    ensures forall i :: 0 <= i < |Without(s, id)| ==> Without(s, id)[i].id != id
  {
    var r := Without(s, id);
    forall i | 0 <= i < |r| ensures r[i].id != id {
      assert r[i] in r;
    }
  }

  /** Identifiers increase along the list: they were handed out in order. */
  ghost predicate IncreasingIds(s: seq<Notification>) {
    forall i, j :: 0 <= i < j < |s| ==> s[i].id < s[j].id
  }

  /** Removing entries keeps the identifiers increasing, so the active list
      never holds two notifications with the same identifier. */
  lemma {:induction false} DismissKeepsIdsIncreasing(s: seq<Notification>, id: nat)
    requires IncreasingIds(s)
    ensures IncreasingIds(Without(s, id))
    decreases |s|
  {
    if s != [] {
      var keep := (n: Notification) => n.id != id;
      var tail := Without(s[1..], id);
      assert IncreasingIds(s[1..]) by {
        forall i, j | 0 <= i < j < |s[1..]| ensures s[1..][i].id < s[1..][j].id {
          assert s[1..][i] == s[i + 1] && s[1..][j] == s[j + 1];
        }
      }
      DismissKeepsIdsIncreasing(s[1..], id);
      if keep(s[0]) {
        forall k | 0 <= k < |tail| ensures s[0].id < tail[k].id {
          assert tail[k] in tail;
          var j :| 0 <= j < |s[1..]| && s[1..][j] == tail[k];
          assert s[j + 1] == tail[k];
        }
        assert Without(s, id) == [s[0]] + tail;
      }
    }
  }

  /** The notification service: the list held by the subject, the id
      counter, the ids whose auto-dismiss timer is still pending, and (as a
      ghost) every snapshot the subject has published, the initial empty
      list first. */
  class NotificationService {
    var notifications: seq<Notification>
    var counter: nat
    var scheduled: set<nat>
    ghost var published: seq<seq<Notification>>

    ghost predicate Valid()
      reads this
    {
      && published != [] && published[|published| - 1] == notifications
      && IncreasingIds(notifications)
      && (forall n :: n in notifications ==> 1 <= n.id <= counter)
      && (forall n :: n in notifications && SchedulesExpiry(n) ==> n.id in scheduled)
      && (forall id :: id in scheduled ==> 1 <= id <= counter)
    }

    constructor ()
      ensures Valid()
      ensures notifications == [] && counter == 0 && scheduled == {}
      ensures published == [[]]
    {
      notifications := [];
      counter := 0;
      scheduled := {};
      published := [[]];
    }

    /** The counter is incremented before it is read, so every id is one
        more than all ids handed out before it. */
    method GenerateId() returns (id: nat)
      modifies this`counter
      ensures counter == old(counter) + 1 && id == counter
    {
      counter := counter + 1;
      id := counter;
    }

    /** `show`: append one notification with a fresh id at the end, start its
        timer when its duration is positive, and publish the new list. */
    method Show(options: NotificationOptions)
      requires Valid()
      modifies this
      ensures Valid()
      ensures counter == old(counter) + 1
      ensures notifications == old(notifications) + [MakeNotification(counter, options)]
      ensures forall i :: 0 <= i < |old(notifications)| ==> old(notifications)[i].id < counter
      ensures scheduled == if SchedulesExpiry(MakeNotification(counter, options))
                           then old(scheduled) + {counter} else old(scheduled)
      ensures published == old(published) + [notifications]
    {
      var id := GenerateId();
      var n := MakeNotification(id, options);
      notifications := notifications + [n];
      published := published + [notifications];
      if SchedulesExpiry(n) {
        scheduled := scheduled + {id};
      }
    }

    method Success(message: string, duration: Option<int>)
      requires Valid()
      modifies this
      ensures Valid()
      ensures counter == old(counter) + 1
      ensures notifications == old(notifications) + [MakeNotification(counter, ShortcutOptions(NotificationType.Success, message, duration))]
      ensures scheduled == if duration.GetOr(3000) > 0 then old(scheduled) + {counter} else old(scheduled)
      ensures published == old(published) + [notifications]
    {
      Show(ShortcutOptions(NotificationType.Success, message, duration));
    }

    method Error(message: string, duration: Option<int>)
      requires Valid()
      modifies this
      ensures Valid()
      ensures counter == old(counter) + 1
      ensures notifications == old(notifications) + [MakeNotification(counter, ShortcutOptions(NotificationType.Error, message, duration))]
      ensures scheduled == if duration.GetOr(5000) > 0 then old(scheduled) + {counter} else old(scheduled)
      ensures published == old(published) + [notifications]
    {
      Show(ShortcutOptions(NotificationType.Error, message, duration));
    }

    method Warning(message: string, duration: Option<int>)
      requires Valid()
      modifies this
      ensures Valid()
      ensures counter == old(counter) + 1
      ensures notifications == old(notifications) + [MakeNotification(counter, ShortcutOptions(NotificationType.Warning, message, duration))]
      ensures scheduled == if duration.GetOr(4000) > 0 then old(scheduled) + {counter} else old(scheduled)
      ensures published == old(published) + [notifications]
    {
      Show(ShortcutOptions(NotificationType.Warning, message, duration));
    }

    method Info(message: string, duration: Option<int>)
      requires Valid()
      modifies this
      ensures Valid()
      ensures counter == old(counter) + 1
      ensures notifications == old(notifications) + [MakeNotification(counter, ShortcutOptions(NotificationType.Info, message, duration))]
      ensures scheduled == if duration.GetOr(3000) > 0 then old(scheduled) + {counter} else old(scheduled)
      ensures published == old(published) + [notifications]
    {
      Show(ShortcutOptions(NotificationType.Info, message, duration));
    }

    /** `dismiss(id)`: keep every entry with another id and publish. */
    method Dismiss(id: nat)
      requires Valid()
      modifies this
      ensures Valid()
      ensures notifications == Without(old(notifications), id)
      ensures counter == old(counter) && scheduled == old(scheduled)
      ensures published == old(published) + [notifications]
    {
      DismissKeepsIdsIncreasing(notifications, id);
      notifications := Without(notifications, id);
      published := published + [notifications];
    }

    /** `dismissAll`: publish the empty list. */
    method DismissAll()
      requires Valid()
      modifies this
      ensures Valid()
      ensures notifications == []
      ensures counter == old(counter) && scheduled == old(scheduled)
      ensures published == old(published) + [[]]
    {
      notifications := [];
      published := published + [notifications];
    }

    /** The auto-dismiss timer of `id` fires: it behaves exactly as
        `dismiss(id)`, so it never brings an entry back and does nothing to
        the list when the entry was already dismissed. */
    method Expire(id: nat)
      requires Valid() && id in scheduled
      modifies this
      ensures Valid()
      ensures notifications == Without(old(notifications), id)
      ensures scheduled == old(scheduled) - {id} && counter == old(counter)
      ensures published == old(published) + [notifications]
    {
      DismissKeepsIdsIncreasing(notifications, id);
      notifications := Without(notifications, id);
      scheduled := scheduled - {id};
      published := published + [notifications];
    }
  }
}
