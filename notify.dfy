/**
 * The service calls the update sensor sends when it sees new updates: one
 * persistent notification, then one call per configured notify service.
 */
module Notify {
  import opened Wrappers

  /** The body of a call; the persistent notification carries no `data` key. */
  datatype Payload = Payload(title: string, message: string, data: Option<map<string, string>>)

  datatype ServiceCall = ServiceCall(domain: string, service: string, payload: Payload)

  const PersistentTitle := "\U{1F6E0}\U{FE0F} Mises \U{E0} jour disponibles"
  const NotifyTitle := "\U{1F6E0}\U{FE0F} UsefulHa : Updates"

  /** Appended to the rendered message in the persistent notification only. */
  const UpdatesLink := "\n\n[Voir les mises \U{E0} jour](/config/updates)"

  /** The `data` of every notify call. */
  const NotifyData: map<string, string> := map[
    "group" := "updates-ha",
    "clickAction" := "/config/updates",
    "notification_icon" := "mdi:home-assistant"]

  /** `persistent_notification.create` with the rendered message and the link to the updates page. */
  function PersistentCall(rendered: string): (call: ServiceCall)
    ensures call.domain == "persistent_notification" && call.service == "create"
    ensures call.payload.title == PersistentTitle
    ensures call.payload.message == rendered + UpdatesLink && call.payload.data.None?
  {
    ServiceCall("persistent_notification", "create", Payload(PersistentTitle, rendered + UpdatesLink, None))
  }

  /** `notify.<service>` with the rendered message as it is. */
  function NotifyCall(service: string, rendered: string): (call: ServiceCall)
    ensures call.domain == "notify" && call.service == service
    ensures call.payload.title == NotifyTitle
    ensures call.payload.message == rendered && call.payload.data == Some(NotifyData)
  {
    ServiceCall("notify", service, Payload(NotifyTitle, rendered, Some(NotifyData)))
  }

  /** One notify call per configured service, in the configured order. */
  function NotifyCalls(services: seq<string>, rendered: string): (calls: seq<ServiceCall>)
    ensures |calls| == |services|
    ensures forall k :: 0 <= k < |services| ==> calls[k] == NotifyCall(services[k], rendered)
  {
    if services == [] then []
    else NotifyCalls(services[..|services| - 1], rendered) + [NotifyCall(services[|services| - 1], rendered)]
  }

  /** Every call a poll with new updates sends, when the persistent notification does not fail. */
  function Notifications(sendPersistent: bool, services: seq<string>, rendered: string): (calls: seq<ServiceCall>)
    ensures |calls| == (if sendPersistent then 1 else 0) + |services|
  {
    (if sendPersistent then [PersistentCall(rendered)] else []) + NotifyCalls(services, rendered)
  }

  /**
   * The layout of those calls: the persistent notification first, when
   * enabled, and nowhere else; then one notify call per service, in order.
   */
  lemma NotificationsLayout(sendPersistent: bool, services: seq<string>, rendered: string)
    ensures var calls := Notifications(sendPersistent, services, rendered);
      && (forall k :: 0 <= k < |calls| ==>
        (calls[k].domain == "persistent_notification" <==> sendPersistent && k == 0))
      && (sendPersistent ==> calls[0] == PersistentCall(rendered))
      && (forall k :: 0 <= k < |services| ==>
        calls[|calls| - |services| + k] == NotifyCall(services[k], rendered))
  {
    var head := if sendPersistent then [PersistentCall(rendered)] else [];
    var tail := NotifyCalls(services, rendered);
    var calls := head + tail;
    assert calls == Notifications(sendPersistent, services, rendered);
    forall k | 0 <= k < |calls|
      ensures calls[k].domain == "persistent_notification" <==> sendPersistent && k == 0
    {
      if k >= |head| {
        assert calls[k] == tail[k - |head|];
      }
    }
  }
}
