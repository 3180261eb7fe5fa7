/**
 * MonitorCamera: one `check_state` per polling tick decides whether the
 * camera is active, records the image reference a hub should show, and
 * notifies the subscribed hubs when the state changes.
 */
module Monitor {
  import opened Basics
  import opened Contours
  import opened Paths
  import opened Status

  /** The configuration entries check_state reads. */
  datatype MonitorConfig = MonitorConfig(minArea: real, basepath: string, s3bucket: string, s3folder: string, fileext: string)

  /**
   * What the camera delivers on one tick: either the resize of the raw
   * frame failed, or the frame's time stamp (as the file-name strftime text)
   * and the areas of the contours found against the running average.
   */
  datatype Capture = ResizeFailed | Frame(stamp: string, areas: seq<real>)

  /**
   * The monitor's state between ticks: whether the background model exists
   * (`avg is not None`), the state handed to the next check_state, and the
   * shared `last_state` and `last_image`.
   */
  datatype Camera = Camera(seeded: bool, current: Occupancy, lastState: Occupancy, lastImage: string)

  /** The result of one tick: the new state, whether hubs are notified, the local file written and the S3 key uploaded. */
  datatype Check = Check(next: Camera, notify: bool, saved: Option<string>, uploaded: Option<string>)

  function Flip(s: Occupancy): Occupancy {
    if s == Inactive then Active else Inactive
  }

  /** `"/{}/{}".format(s3bucket, s3filename)`: the image reference sent back to the hub. */
  function ImageUrl(bucket: string, key: string): (u: string)
    ensures |u| == |bucket| + 2 + |key|
    ensures u[..|bucket| + 2] == "/" + bucket + "/" && u[|bucket| + 2..] == key
  {
    var dir := "/" + bucket + "/";
    var u := dir + key;
    assert u[..|dir|] == dir;
    u
  }

  /** One check_state call, as a function of the state before it. */
  function CheckStep(c: Camera, cap: Capture, cfg: MonitorConfig): (r: Check)
    // a failed resize and the frame that seeds the background change nothing but the seed
    ensures cap.ResizeFailed? ==> r == Check(c, false, None, None)
    ensures cap.Frame? && !c.seeded ==> r == Check(c.(seeded := true), false, None, None)
    ensures r.next.seeded == (c.seeded || cap.Frame?)
    // becoming active needs a contour of at least the minimum area, and one always suffices
    ensures c.current == Inactive && r.next.current == Active ==> cap.Frame? && AnyLarge(cap.areas, cfg.minArea)
    ensures c.seeded && cap.Frame? && c.current == Inactive && AnyLarge(cap.areas, cfg.minArea) ==> r.next.current == Active
    // becoming inactive needs a frame with no contour at all, and one always suffices
    ensures c.current == Active && r.next.current == Inactive ==> cap.Frame? && cap.areas == []
    ensures c.seeded && cap.Frame? && c.current == Active && cap.areas == [] ==> r.next.current == Inactive
    // hubs are notified exactly on a change of state, and last_state follows it
    ensures r.notify <==> r.next.current != c.current
    ensures r.notify ==> r.next.lastState == r.next.current
    ensures !r.notify ==> r.next.lastState == c.lastState
    // the image reference moves only when the camera becomes active, to the uploaded key
    ensures c.current == Inactive && r.next.current == Active ==>
      && r.uploaded == Some(GetPath(cfg.s3folder, cap.stamp, cfg.fileext))
      && r.next.lastImage == ImageUrl(cfg.s3bucket, GetPath(cfg.s3folder, cap.stamp, cfg.fileext))
    ensures !(c.current == Inactive && r.next.current == Active) ==> r.next.lastImage == c.lastImage && r.uploaded == None
    // every frame of an active tick is written locally
    ensures c.seeded && cap.Frame? ==>
      r.saved == (if r.next.current == Active then Some(GetPath(cfg.basepath, cap.stamp, cfg.fileext)) else None)
    ensures !(c.seeded && cap.Frame?) ==> r.saved == None
  {
    match cap
    case ResizeFailed => Check(c, false, None, None)
    case Frame(stamp, areas) =>
      if !c.seeded then Check(c.(seeded := true), false, None, None)
      else
        var rising := c.current == Inactive && AnyLarge(areas, cfg.minArea);
        var state := if rising then Active else c.current;
        var falling := areas == [] && state == Active;
        var state' := if falling then Inactive else state;
        var notify := rising || falling;
        var lastState := if notify then state' else c.lastState;
        var saved := if state' == Active then Some(GetPath(cfg.basepath, stamp, cfg.fileext)) else None;
        var key := GetPath(cfg.s3folder, stamp, cfg.fileext);
        var uploaded := if state' == Active && notify then Some(key) else None;
        var image := if state' == Active && notify then ImageUrl(cfg.s3bucket, key) else c.lastImage;
        Check(Camera(true, state', lastState, image), notify, saved, uploaded)
  }

  /** The state after a run of ticks. */
  function Run(c: Camera, caps: seq<Capture>, cfg: MonitorConfig): Camera
    decreases |caps|
  {
    if caps == [] then c else Run(CheckStep(c, caps[0], cfg).next, caps[1..], cfg)
  }

  /** The state announced to the hubs by each notifying tick of a run, in order. */
  function Notified(c: Camera, caps: seq<Capture>, cfg: MonitorConfig): seq<Occupancy>
    decreases |caps|
  {
    if caps == [] then []
    else
      var r := CheckStep(c, caps[0], cfg);
      (if r.notify then [r.next.current] else []) + Notified(r.next, caps[1..], cfg)
  }

  /**
   * Notifications alternate, starting with the opposite of the initial
   * state, and their parity gives the final state.
   */
  lemma {:induction false} NotificationsAlternate(c: Camera, caps: seq<Capture>, cfg: MonitorConfig)
    ensures var n := Notified(c, caps, cfg);
      forall i :: 0 <= i < |n| ==> n[i] == (if i % 2 == 0 then Flip(c.current) else c.current)
    ensures Run(c, caps, cfg).current == (if |Notified(c, caps, cfg)| % 2 == 0 then c.current else Flip(c.current))
    decreases |caps|
  {
    if caps != [] {
      var r := CheckStep(c, caps[0], cfg);
      NotificationsAlternate(r.next, caps[1..], cfg);
      var rest := Notified(r.next, caps[1..], cfg);
      if r.notify {
        assert r.next.current == Flip(c.current);
        assert Notified(c, caps, cfg) == [r.next.current] + rest;
        assert Flip(r.next.current) == c.current;
      } else {
        assert Notified(c, caps, cfg) == rest;
      }
    }
  }

  /** Once `last_state` agrees with the scheduled state it keeps agreeing, whatever the ticks bring. */
  lemma {:induction false} RunKeepsAgreement(c: Camera, caps: seq<Capture>, cfg: MonitorConfig)
    requires c.lastState == c.current
    ensures Run(c, caps, cfg).lastState == Run(c, caps, cfg).current
    decreases |caps|
  {
    if caps != [] {
      RunKeepsAgreement(CheckStep(c, caps[0], cfg).next, caps[1..], cfg);
    }
  }

  /** One notification POST: the callback URL, the CONTENT-LENGTH header and the body. */
  datatype Post = Post(url: string, contentLength: nat, body: string)

  /**
   * The POSTs of one notify_hubs: one per subscription, in dictionary order,
   * whose expiration is strictly later than `now`.
   */
  function Deliveries(order: seq<string>, expiration: map<string, int>, now: int, body: string): (posts: seq<Post>)
    requires forall k :: k in order ==> k in expiration
    ensures |posts| <= |order|
    ensures forall p :: p in posts ==> p.url in order && expiration[p.url] > now && p.body == body && p.contentLength == |body|
    ensures forall i :: 0 <= i < |order| && expiration[order[i]] > now ==> Post(order[i], |body|, body) in posts
    // the POSTs go out in the order of their subscriptions
    ensures InOrder(posts, order)
    decreases |order|
  {
    if order == [] then []
    else
      var n := |order|;
      var last := order[n - 1];
      var init := order[..n - 1];
      var prev := Deliveries(init, expiration, now, body);
      var extra := if expiration[last] > now then [Post(last, |body|, body)] else [];
      InOrderSnoc(prev, extra, init, order);
      prev + extra
  }

  /** `posts[i]` and `posts[j]`, for `i < j`, name subscriptions in that order. */
  ghost predicate InOrder(posts: seq<Post>, order: seq<string>) {
    forall i, j :: 0 <= i < j < |posts| ==> OrderedPair(posts, order, i, j)
  }

  /** Some subscription `a` before some subscription `b` are the URLs of `posts[i]` and `posts[j]`. */
  ghost predicate OrderedPair(posts: seq<Post>, order: seq<string>, i: nat, j: nat)
    requires i < |posts| && j < |posts|
  {
    exists a, b :: 0 <= a < b < |order| && posts[i].url == order[a] && posts[j].url == order[b]
  }

  /** Appending the POSTs for the last subscription keeps the POSTs in subscription order. */
  lemma InOrderSnoc(prev: seq<Post>, extra: seq<Post>, init: seq<string>, order: seq<string>)
    requires |order| > 0 && init == order[..|order| - 1]
    requires forall p :: p in prev ==> p.url in init
    requires InOrder(prev, init)
    requires forall p :: p in extra ==> p.url == order[|order| - 1]
    requires |extra| <= 1
    ensures InOrder(prev + extra, order)
  {
    var posts := prev + extra;
    forall i, j | 0 <= i < j < |posts|
      ensures OrderedPair(posts, order, i, j)
    {
      assert posts[i] == prev[i];
      if j < |prev| {
        assert posts[j] == prev[j];
        assert OrderedPair(prev, init, i, j);
        var a, b :| 0 <= a < b < |init| && prev[i].url == init[a] && prev[j].url == init[b];
        assert init[a] == order[a] && init[b] == order[b];
      } else {
        assert prev[i] in prev && posts[j] in extra;
        var a :| 0 <= a < |init| && init[a] == prev[i].url;
        assert init[a] == order[a];
      }
    }
  }

  /** No POST goes out when every subscription has expired. */
  lemma {:induction false} ExpiredNotNotified(order: seq<string>, expiration: map<string, int>, now: int, body: string)
    requires forall k :: k in order ==> k in expiration && expiration[k] <= now
    ensures Deliveries(order, expiration, now, body) == []
    decreases |order|
  {
    if order != [] {
      ExpiredNotNotified(order[..|order| - 1], expiration, now, body);
    }
  }

  /** How a POST ended: a response with a status code, or a failure. */
  datatype Delivery = Answered(code: int) | Failed(failure: FailureKind)
  datatype FailureKind = ResponseFailed | OtherFailure(description: string)
  datatype LogLevel = Debug | Info | Error

  /** handle_response and handle_error: the level at which the outcome of a POST is logged. */
  function Classify(d: Delivery): LogLevel {
    match d
    case Answered(code) => if code == 202 then Info else Error
    case Failed(ResponseFailed) => Debug
    case Failed(OtherFailure(_)) => Error
  }

  class MonitorCamera {
    const deviceTarget: string
    const registry: Registry
    const camera: CameraStatus
    const cfg: MonitorConfig
    /** `self.avg is not None` */
    var seeded: bool
    /** the `current_state` handed to the next scheduled check_state */
    var current: Occupancy

    function Snapshot(): Camera
      reads this, camera
    {
      Camera(seeded, current, camera.lastState, camera.lastImage)
    }

    /** The shared `last_state` agrees with the scheduled state. */
    ghost predicate Valid()
      reads this, camera
    {
      current == camera.lastState
    }

    /** The monitor starts without a background model and schedules its first check as inactive. */
    constructor (deviceTarget: string, registry: Registry, camera: CameraStatus, cfg: MonitorConfig)
      ensures this.deviceTarget == deviceTarget && this.registry == registry && this.camera == camera && this.cfg == cfg
      ensures !seeded && current == Inactive
      ensures Valid() <==> camera.lastState == Inactive
    {
      this.deviceTarget := deviceTarget;
      this.registry := registry;
      this.camera := camera;
      this.cfg := cfg;
      seeded := false;
      current := Inactive;
    }

    /** The POSTs notify_hubs sends for the current camera status. */
    method NotifyHubs(now: int) returns (posts: seq<Post>)
      requires registry.Valid()
      ensures posts == Deliveries(registry.order, registry.expiration, now,
                                  StatusMessage(camera.lastState, deviceTarget, camera.lastImage))
    {
      var msg := StatusMessage(camera.lastState, deviceTarget, camera.lastImage);
      posts := [];
      for i := 0 to |registry.order|
        invariant posts == Deliveries(registry.order[..i], registry.expiration, now, msg)
      {
        var subscription := registry.order[i];
        assert registry.order[..i + 1][..i] == registry.order[..i];
        if registry.expiration[subscription] > now {
          posts := posts + [Post(subscription, |msg|, msg)];
        }
      }
      assert registry.order[..|registry.order|] == registry.order;
    }

    /**
     * One check_state tick: the new state is CheckStep of the old one, and
     * the POSTs are those of notify_hubs after the state change when the
     * state changed, none otherwise.
     */
    method CheckState(cap: Capture, now: int) returns (posts: seq<Post>, saved: Option<string>, uploaded: Option<string>)
      requires registry.Valid()
      modifies this, camera
      ensures var r := CheckStep(old(Snapshot()), cap, cfg);
        && Snapshot() == r.next && saved == r.saved && uploaded == r.uploaded
        && posts == (if r.notify then Deliveries(registry.order, registry.expiration, now,
                                                 StatusMessage(camera.lastState, deviceTarget, camera.lastImage))
                     else [])
      ensures old(Valid()) ==> Valid()
    {
      posts, saved, uploaded := [], None, None;
      if cap.ResizeFailed? {
        return;
      }
      if !seeded {
        seeded := true;
        return;
      }
      var areas := cap.areas;
      var state := current;
      var notify := false;
      for i := 0 to |areas|
        invariant state == (if current == Inactive && AnyLarge(areas[..i], cfg.minArea) then Active else current)
        invariant notify <==> state != current
        invariant notify ==> camera.lastState == state
        invariant !notify ==> camera.lastState == old(camera.lastState)
        invariant camera.lastImage == old(camera.lastImage) && seeded && current == old(current)
      {
        AnyLargeSnoc(areas, i, cfg.minArea);
        if areas[i] >= cfg.minArea && state == Inactive {
          state := Active;
          camera.lastState := state;
          notify := true;
        }
      }
      assert areas[..|areas|] == areas;
      if areas == [] && state == Active {
        state := Inactive;
        camera.lastState := state;
        notify := true;
      }
      if state == Active {
        saved := Some(GetPath(cfg.basepath, cap.stamp, cfg.fileext));
        if notify {
          var key := GetPath(cfg.s3folder, cap.stamp, cfg.fileext);
          uploaded := Some(key);
          camera.lastImage := ImageUrl(cfg.s3bucket, key);
        }
      }
      if notify {
        posts := NotifyHubs(now);
      }
      current := state;
    }
  }
}
