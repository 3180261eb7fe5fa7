/**
 * StatusServer and the state it shares with MonitorCamera: the
 * subscription registry (`subscription_list`), the camera status
 * (`camera_status['last_state']`, `camera_image['last_image']`) and the one
 * XML-like status message sent by SUBSCRIBE, GET /status and notifications.
 */
module Status {
  import Discovery

  datatype Occupancy = Inactive | Active

  /** `last_state` as the source spells it. */
  function StateName(s: Occupancy): string {
    match s
    case Inactive => "inactive"
    case Active => "active"
  }

  /** The `<cmd>` of the status message: inactive only for the literal state "inactive". */
  function Command(s: Occupancy): (cmd: string)
    ensures cmd == "status-" + StateName(s)
  {
    if StateName(s) == "inactive" then "status-inactive" else "status-active"
  }

  /** The two states give two different commands. */
  lemma CommandInjective(s1: Occupancy, s2: Occupancy)
    ensures Command(s1) == Command(s2) ==> s1 == s2
  {
    if s1 != s2 {
      assert Command(s1)[7] != Command(s2)[7];
    }
  }

  const MessageHead := "<msg><cmd>"

  /**
   * The body shared by render_SUBSCRIBE, render_GET and notify_hubs: the
   * command, the USN and the image reference inside 97 fixed characters,
   * which is what the CONTENT-LENGTH of a notification counts.
   */
  function StatusMessage(state: Occupancy, deviceTarget: string, image: string): (m: string)
    ensures |m| == 97 + |Command(state)| + |deviceTarget| + |image|
  {
    MessageHead + Command(state) + "</cmd><usn>uuid:" + Discovery.Uuid + "::" + deviceTarget
    + "</usn><imageurl>" + image + "</imageurl></msg>"
  }

  /** A hub can read both the state and the image reference back from a status message. */
  lemma StatusMessageInjective(s1: Occupancy, s2: Occupancy, target: string, i1: string, i2: string)
    requires StatusMessage(s1, target, i1) == StatusMessage(s2, target, i2)
    ensures s1 == s2 && i1 == i2
  {
    var m := StatusMessage(s1, target, i1);
    assert m[17] == Command(s1)[7];
    assert StatusMessage(s2, target, i2)[17] == Command(s2)[7];
    assert s1 == s2;
    var prefix := MessageHead + Command(s1) + "</cmd><usn>uuid:" + Discovery.Uuid + "::" + target + "</usn><imageurl>";
    var tail := "</imageurl></msg>";
    assert m == prefix + i1 + tail;
    assert StatusMessage(s2, target, i2) == prefix + i2 + tail;
    assert |i1| == |i2|;
    assert m[|prefix|..|prefix| + |i1|] == i1;
    assert (prefix + i2 + tail)[|prefix|..|prefix| + |i2|] == i2;
  }

  /** A subscription lasts `24 * 3600` seconds from the SUBSCRIBE. */
  const SubscriptionLifetime := 24 * 3600

  /** The image reference before any motion, as main sets it. */
  const BlankImage := "/raspicameras/front/blank.jpg"

  /**
   * The subscription dictionary: insertion order of the callback URLs (the
   * order in which notify_hubs walks them) and each one's expiration.
   */
  datatype Subscriptions = Subscriptions(order: seq<string>, expiration: map<string, int>)

  /** One entry per callback URL, and the order lists exactly the keys. */
  ghost predicate WellFormed(subs: Subscriptions) {
    && (forall i, j :: 0 <= i < j < |subs.order| ==> subs.order[i] != subs.order[j])
    && (forall k :: k in subs.expiration <==> k in subs.order)
  }

  /** Add `key` with `expires`, or move the expiration of an existing `key` to `expires`. */
  function Refresh(subs: Subscriptions, key: string, expires: int): (r: Subscriptions)
    ensures WellFormed(subs) ==> WellFormed(r)
    ensures r.expiration.Keys == subs.expiration.Keys + {key}
    ensures r.expiration[key] == expires
    ensures forall k :: k in subs.expiration && k != key ==> r.expiration[k] == subs.expiration[k]
    ensures key in subs.order ==> r.order == subs.order
    ensures key !in subs.order ==> r.order == subs.order + [key]
  {
    Subscriptions(if key in subs.order then subs.order else subs.order + [key], subs.expiration[key := expires])
  }

  /** A second SUBSCRIBE from the same callback leaves one entry, expiring at the later time. */
  lemma RefreshTwice(subs: Subscriptions, key: string, e1: int, e2: int)
    requires WellFormed(subs)
    ensures Refresh(Refresh(subs, key, e1), key, e2) == Refresh(subs, key, e2)
    ensures |Refresh(Refresh(subs, key, e1), key, e2).order| == |Refresh(subs, key, e1).order|
  {
  }

  /** `headers[b'callback'][1:-1]`: the URL inside the angle brackets. */
  function CallbackKey(header: string): (url: string)
    ensures |header| >= 2 ==> header == [header[0]] + url + [header[|header| - 1]]
    ensures |header| < 2 ==> url == ""
  {
    if |header| >= 2 then header[1..|header| - 1] else ""
  }

  lemma CallbackKeyOfBracketed(url: string)
    ensures CallbackKey("<" + url + ">") == url
  {
  }

  /** `subscription_list`, shared by the status server and the camera monitor. */
  class Registry {
    var order: seq<string>
    var expiration: map<string, int>

    function Value(): Subscriptions
      reads this
    {
      Subscriptions(order, expiration)
    }

    ghost predicate Valid()
      reads this
    {
      WellFormed(Value())
    }

    constructor ()
      ensures Valid() && order == [] && expiration == map[]
    {
      order := [];
      expiration := map[];
    }
  }

  /** `camera_status` and `camera_image`, written only by the camera monitor. */
  class CameraStatus {
    var lastState: Occupancy
    var lastImage: string

    constructor ()
      ensures lastState == Inactive && lastImage == BlankImage
    {
      lastState := Inactive;
      lastImage := BlankImage;
    }
  }

  /** The HTTP resource that answers the hub's SUBSCRIBE and polling GET requests. */
  class StatusServer {
    const deviceTarget: string
    const registry: Registry
    const camera: CameraStatus

    constructor (deviceTarget: string, registry: Registry, camera: CameraStatus)
      ensures this.deviceTarget == deviceTarget && this.registry == registry && this.camera == camera
    {
      this.deviceTarget := deviceTarget;
      this.registry := registry;
      this.camera := camera;
    }

    /**
     * SUBSCRIBE: with a `callback` header, add or refresh that callback to
     * expire a day after `now`; always answer with the status message.
     * `headers` is the request's header dictionary keyed by lower-cased name.
     */
    method RenderSubscribe(headers: map<string, string>, now: int) returns (body: string)
      requires registry.Valid()
      modifies registry
      ensures registry.Valid()
      ensures "callback" in headers ==>
        registry.Value() == Refresh(old(registry.Value()), CallbackKey(headers["callback"]), now + SubscriptionLifetime)
      ensures "callback" !in headers ==> registry.Value() == old(registry.Value())
      ensures body == StatusMessage(camera.lastState, deviceTarget, camera.lastImage)
    {
      if "callback" in headers {
        var url := CallbackKey(headers["callback"]);
        if url !in registry.expiration {
          registry.order := registry.order + [url];
        }
        registry.expiration := registry.expiration[url := now + SubscriptionLifetime];
      }
      body := StatusMessage(camera.lastState, deviceTarget, camera.lastImage);
    }

    /** GET: the status message for `/status`, an empty body for any other path; nothing changes. */
    method RenderGet(path: string) returns (body: string)
      ensures path == "/status" ==> body == StatusMessage(camera.lastState, deviceTarget, camera.lastImage)
      ensures path != "/status" ==> body == ""
    {
      if path == "/status" {
        body := StatusMessage(camera.lastState, deviceTarget, camera.lastImage);
      } else {
        body := "";
      }
    }
  }

  /**
   * The shared state as main creates it, one SUBSCRIBE from a hub and then
   * a GET of /status before any change of state: both answers are the same
   * inactive message with the blank image.
   */
  method SubscribeThenPoll(deviceTarget: string, callback: string, now: int) returns (subscribed: string, polled: string)
    ensures subscribed == polled == StatusMessage(Inactive, deviceTarget, BlankImage)
  {
    var registry := new Registry();
    var camera := new CameraStatus();
    var server := new StatusServer(deviceTarget, registry, camera);
    subscribed := server.RenderSubscribe(map["callback" := "<" + callback + ">"], now);
    polled := server.RenderGet("/status");
  }
}
