/**
 * The transfer-request bell: which notifications belong to the signed-in
 * student, how many are unread, which transfer request each links to, and
 * whether that request offers Accept/Reject or shows its final status.
 */
module TransferNotifications {
  import opened Lists
  import opened Rows

  /** The `currentUser` prop. */
  datatype Viewer = Viewer(rollNumber: string, name: string)

  /** `key in data && data[key] === s`, with `data` a non-null object. */
  predicate FieldIs(data: Json, key: string, s: string)
  {
    data.JObject? && key in data.fields && data.fields[key] == JString(s)
  }

  /** A transfer-request notification addressed, by `to_user_id`, to this viewer. */
  predicate ForViewer(n: NotificationRow, viewer: Option<Viewer>)
  {
    n.kind == "transfer_request" && viewer.Some? && FieldIs(n.data, "to_user_id", viewer.value.rollNumber)
  }

  /** `userTransferNotifications`: the viewer's transfer notifications, in their original order. */
  function UserTransferNotifications(notifications: seq<NotificationRow>, viewer: Option<Viewer>)
    : (r: seq<NotificationRow>)
    ensures viewer.None? ==> r == []
    ensures forall k :: 0 <= k < |r| ==> r[k] in notifications && ForViewer(r[k], viewer)
    ensures forall k :: 0 <= k < |notifications| && ForViewer(notifications[k], viewer) ==> notifications[k] in r
  {
    var r := Filter(notifications, (n: NotificationRow) => ForViewer(n, viewer));
    if viewer.None? then
      FilterKeepsNone(notifications, (n: NotificationRow) => ForViewer(n, viewer));
      r
    else r
  }

  /** The viewer's list keeps the feed's order. */
  lemma UserTransferNotificationsConcat(a: seq<NotificationRow>, b: seq<NotificationRow>, viewer: Option<Viewer>)
    ensures UserTransferNotifications(a + b, viewer)
              == UserTransferNotifications(a, viewer) + UserTransferNotifications(b, viewer)
  {
    FilterConcat(a, b, (n: NotificationRow) => ForViewer(n, viewer));
  }

  /** `unreadCount`: the viewer's notifications with `read == false`. */
  function UnreadCount(notifications: seq<NotificationRow>, viewer: Option<Viewer>): (n: nat)
    ensures n <= |UserTransferNotifications(notifications, viewer)|
    ensures viewer.None? ==> n == 0
  {
    |Filter(UserTransferNotifications(notifications, viewer), (x: NotificationRow) => !x.read)|
  }

  /** Once every notification is read, nothing is unread. */
  lemma AllReadMeansNoneUnread(notifications: seq<NotificationRow>, viewer: Option<Viewer>)
    requires forall k :: 0 <= k < |notifications| ==> notifications[k].read
    ensures UnreadCount(notifications, viewer) == 0
  {
    var mine := UserTransferNotifications(notifications, viewer);
    FilterKeepsNone(mine, (x: NotificationRow) => !x.read);
  }

  /** The request a notification links to: the first whose id equals the payload's `transfer_id`. */
  function LinkedRequest(requests: seq<TransferRequestRow>, n: NotificationRow): (r: Option<TransferRequestRow>)
    ensures r.Some? ==> FieldIs(n.data, "transfer_id", r.value.id) && r.value in requests
    ensures r.Some? ==> exists k :: 0 <= k < |requests| && requests[k] == r.value &&
                                    forall j :: 0 <= j < k ==> !FieldIs(n.data, "transfer_id", requests[j].id)
    ensures r.None? <==> forall k :: 0 <= k < |requests| ==> !FieldIs(n.data, "transfer_id", requests[k].id)
  {
    Find(requests, (tr: TransferRequestRow) => FieldIs(n.data, "transfer_id", tr.id))
  }

  /** What a notification's card offers about its request. */
  datatype Offer =
    | NoOffer                               // no request is linked
    | AcceptOrReject(transferId: string)    // the request is pending
    | StatusBadge(status: string, approved: bool)  // the request is resolved

  /**
   * Accept/Reject only for a pending linked request, the status badge only
   * for a resolved one, neither without a link; the buttons act on the
   * linked request's id.
   */
  function OfferFor(requests: seq<TransferRequestRow>, n: NotificationRow): (o: Offer)
    ensures o.NoOffer? <==> LinkedRequest(requests, n).None?
    ensures o.AcceptOrReject? <==>
              LinkedRequest(requests, n).Some? && LinkedRequest(requests, n).value.status == "pending"
    ensures o.AcceptOrReject? ==> o.transferId == LinkedRequest(requests, n).value.id
    ensures o.StatusBadge? <==>
              LinkedRequest(requests, n).Some? && LinkedRequest(requests, n).value.status != "pending"
    ensures o.StatusBadge? ==> o.status == LinkedRequest(requests, n).value.status &&
                               o.approved == (o.status == "approved")
  {
    match LinkedRequest(requests, n)
    case None => NoOffer
    case Some(tr) =>
      if tr.status == "pending" then AcceptOrReject(tr.id)
      else StatusBadge(tr.status, tr.status == "approved")
  }

  /** One notification card: the notification, whether it is highlighted as unread, and its offer. */
  datatype Card = Card(notification: NotificationRow, unread: bool, offer: Offer)

  /** The rendered bell and dialog: the badge count (shown when positive) and the cards. */
  datatype Panel = Panel(badge: Option<nat>, cards: seq<Card>)

  function Cards(list: seq<NotificationRow>, requests: seq<TransferRequestRow>): (cs: seq<Card>)
    ensures |cs| == |list|
    ensures forall k :: 0 <= k < |list| ==>
              cs[k] == Card(list[k], !list[k].read, OfferFor(requests, list[k]))
  {
    Map(list, (n: NotificationRow) => Card(n, !n.read, OfferFor(requests, n)))
  }

  /**
   * The component: nothing without a viewer; otherwise one card per
   * notification of the viewer's list, in order, and a badge exactly when
   * some of them are unread.
   */
  function Render(notifications: seq<NotificationRow>, requests: seq<TransferRequestRow>, viewer: Option<Viewer>)
    : (p: Option<Panel>)
    ensures p.None? <==> viewer.None?
    ensures p.Some? ==> p.value.cards == Cards(UserTransferNotifications(notifications, viewer), requests)
    ensures p.Some? ==> (p.value.badge.Some? <==> UnreadCount(notifications, viewer) > 0)
    ensures p.Some? && p.value.badge.Some? ==> p.value.badge.value == UnreadCount(notifications, viewer)
  {
    if viewer.None? then None
    else
      var unread := UnreadCount(notifications, viewer);
      Some(Panel(if unread > 0 then Some(unread) else None,
                 Cards(UserTransferNotifications(notifications, viewer), requests)))
  }
}
