/**
 * Notification dispatch: which mechanism surfaces a notification, chosen
 * over abstract capability flags in the order the source tries them.
 */
module Notify {
  import opened Reminders

  datatype Platform = Darwin | Linux | Win32 | OtherPlatform

  /** Host-side mechanisms, in the order showNativeNotification tries them. */
  datatype Mechanism = ElectronNotification | AppleScript | NotifySend

  /**
   * What the host environment offers: `supported` is Notification.isSupported(),
   * `shows` that constructing and showing it does not throw, `spawns` that
   * execFile starts the command-line helper without throwing synchronously.
   */
  datatype NativeCaps = NativeCaps(supported: bool, shows: bool, spawns: bool)

  /** A notification the host attempted, with the mechanism that accepted it (None: returned false). */
  datatype Notice = Notice(title: string, body: string, via: Option<Mechanism>)

  /** showNativeNotification: the first mechanism that does not fail, or None. */
  function NativeDispatch(platform: Platform, caps: NativeCaps): (via: Option<Mechanism>)
    ensures via == Some(ElectronNotification) <==> caps.supported && caps.shows
    ensures via == Some(AppleScript) <==>
      !(caps.supported && caps.shows) && platform == Darwin && caps.spawns
    ensures via == Some(NotifySend) <==>
      !(caps.supported && caps.shows) && platform == Linux && caps.spawns
    ensures via == None <==>
      !(caps.supported && caps.shows) && !((platform == Darwin || platform == Linux) && caps.spawns)
  {
    if caps.supported && caps.shows then Some(ElectronNotification)
    else if platform == Darwin && caps.spawns then Some(AppleScript)
    else if platform == Linux && caps.spawns then Some(NotifySend)
    else None
  }

  /** The `{ title, body }` payload of the `show-notification` request; None for an absent key. */
  datatype NotifyRequest = NotifyRequest(title: Option<string>, body: Option<string>)

  function GetOr(o: Option<string>, fallback: string): string
  {
    if o.Some? then o.value else fallback
  }

  /**
   * The `show-notification` handler: a missing payload returns false and
   * attempts nothing; otherwise the defaulted title and body are dispatched.
   */
  function ShowNotificationRequest(payload: Option<NotifyRequest>, platform: Platform, caps: NativeCaps)
    : (res: (bool, Option<Notice>))
    ensures payload.None? ==> res == (false, None)
    ensures payload.Some? ==> res.1.Some? && res.0 == res.1.value.via.Some?
    ensures payload.Some? ==> res.1.value.via == NativeDispatch(platform, caps)
    ensures payload.Some? ==> res.1.value.body == GetOr(payload.value.body, "")
    ensures payload.Some? && (payload.value.title.None? || payload.value.title.value == "") ==>
      res.1.value.title == "Notification"
    ensures payload.Some? ==> res.1.value.title != ""
    ensures payload.Some? && payload.value.title.Some? && payload.value.title.value != "" ==>
      res.1.value.title == payload.value.title.value
  {
    if payload.None? then (false, None)
    else
      var title := OrDefault(GetOr(payload.value.title, "Notification"), "Notification");
      var body := GetOr(payload.value.body, "");
      var via := NativeDispatch(platform, caps);
      (via.Some?, Some(Notice(title, body, via)))
  }

  // ---- UI process (src/App.jsx showNotification) ----

  datatype Permission = Granted | Denied | DefaultPermission

  /**
   * What the renderer offers: the preload bridge and whether invoking it
   * throws synchronously, the browser Notification API, its permission and
   * whether constructing one throws, and whether the in-app alert throws.
   */
  datatype UiCaps = UiCaps(
    bridge: bool, invokeThrows: bool,
    browserApi: bool, permission: Permission, constructs: bool,
    alertWorks: bool)

  datatype UiChannel = ViaHost | ViaBrowser | ViaAlert | NoChannel

  /** The channel used and whether permission was requested on the way. */
  datatype UiDelivery = UiDelivery(channel: UiChannel, askedPermission: bool)

  /** showNotification: host bridge, then the browser API, then the in-app alert. */
  function UiDispatch(caps: UiCaps): (d: UiDelivery)
    ensures d.channel == ViaHost <==> caps.bridge && !caps.invokeThrows
    ensures d.channel == ViaBrowser <==>
      !(caps.bridge && !caps.invokeThrows) &&
      caps.browserApi && caps.permission == Granted && caps.constructs
    ensures d.channel in {ViaHost, ViaBrowser} ==> !d.askedPermission
    ensures d.askedPermission <==>
      !(caps.bridge && !caps.invokeThrows) && caps.browserApi && caps.permission == DefaultPermission
    ensures d.channel == ViaAlert <==>
      !(caps.bridge && !caps.invokeThrows) &&
      !(caps.browserApi && caps.permission == Granted && caps.constructs) && caps.alertWorks
    ensures d.channel == NoChannel <==>
      !(caps.bridge && !caps.invokeThrows) &&
      !(caps.browserApi && caps.permission == Granted && caps.constructs) && !caps.alertWorks
  {
    if caps.bridge && !caps.invokeThrows then UiDelivery(ViaHost, false)
    else if caps.browserApi && caps.permission == Granted && caps.constructs then UiDelivery(ViaBrowser, false)
    else
      var asked := caps.browserApi && caps.permission == DefaultPermission;
      UiDelivery(if caps.alertWorks then ViaAlert else NoChannel, asked)
  }
}
