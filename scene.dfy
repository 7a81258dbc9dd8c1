/**
 * The interactive state of app.js: the selected face, the navigation
 * buttons, the panel, hover and cursor, the two effect flags and their
 * three.js mirrors, the cube pose, the running tweens and the tooltip.
 * Every modelled event handler of the page is a method of `App`; the clock and the
 * ray-cast hit results are parameters, and timers and animation frames are
 * explicit method calls (`Animate`, `ExpireTooltip`, `Tick`).
 */
module Scene {
  import opened Wrappers
  import opened Orientation

  /** `document.body.style.cursor`: never set, `'pointer'` or `'default'`. */
  datatype Cursor = Unset | PointerCursor | DefaultCursor

  /** The `#tooltip` element: creation serial, text, and its `top` and `left` offsets in pixels. */
  datatype Tooltip = Tooltip(serial: nat, text: string, top: int, left: int)

  /** Milliseconds a tooltip's removal timer waits. */
  const TooltipLife: real := 2000.0

  /** The `description` of a section's entry in `faceData`, the text of its tooltip. */
  function Description(s: Section): (d: string)
    ensures |d| > 5 && d[..5] == "View "
  {
    match s
    case Profile => "View Profile"
    case Skills => "View Skills"
    case Experience => "View Experience"
    case Projects => "View Projects"
    case Education => "View Education"
    case Contact => "View Contact"
  }

  /** Each face has its own tooltip text. */
  lemma DescriptionsDistinct(s: Section, t: Section)
    requires s != t
    ensures Description(s) != Description(t)
  {
  }

  /**
   * How a call ended: normally, or with the TypeError `rotateTo` raises when
   * no element carries `data-face` = `key` (`querySelector` returns null).
   */
  datatype Outcome = Done | NoButton(key: string)

  /** The first element, in document order, whose `data-face` is `key`: a navigation button, since only those carry the attribute. */
  function FirstButton(faces: seq<string>, key: string): (r: Option<nat>)
    ensures r.None? <==> key !in faces
    ensures r.Some? ==> r.value < |faces| && faces[r.value] == key
    ensures r.Some? ==> forall j :: 0 <= j < r.value ==> faces[j] != key
  {
    if faces == [] then None
    else if faces[0] == key then Some(0)
    else
      match FirstButton(faces[1..], key)
      case None => None
      case Some(i) => Some(i + 1)
  }

  /**
   * The faces a click on the scene rotates to, in order: the face under the
   * pointer when the cube is hovered, then the icon under the pointer.
   */
  function ClickRotations(hovering: bool, faceHit: Option<Section>, iconHit: Option<Section>): (rs: seq<Section>)
    ensures |rs| == (if hovering && faceHit.Some? then 1 else 0) + (if iconHit.Some? then 1 else 0)
    ensures hovering && faceHit.Some? ==> rs[0] == faceHit.value
    ensures iconHit.Some? ==> rs[|rs| - 1] == iconHit.value
  {
    (if hovering && faceHit.Some? then [faceHit.value] else []) + (if iconHit.Some? then [iconHit.value] else [])
  }

  /**
   * The `rotateTo` calls a handler gets through when it makes the calls `rs`
   * in order and the first key no button carries throws: a prefix of `rs`
   * that is all of it or ends at the first such key.
   */
  function Tried(navFaces: seq<string>, rs: seq<Section>): (ts: seq<Section>)
    ensures ts <= rs
    ensures forall k :: 0 <= k < |ts| - 1 ==> Key(ts[k]) in navFaces
    ensures ts == rs || (|ts| > 0 && Key(ts[|ts| - 1]) !in navFaces)
    ensures (forall k :: 0 <= k < |rs| ==> Key(rs[k]) in navFaces) <==> ts == rs && (ts == [] || Key(ts[|ts| - 1]) in navFaces)
  {
    if rs == [] then []
    else if Key(rs[0]) !in navFaces then [rs[0]]
    else [rs[0]] + Tried(navFaces, rs[1..])
  }

  /** How a handler that tried the calls `ts` ended: with the exception of the last one, or normally. */
  function Ending(navFaces: seq<string>, ts: seq<Section>): (o: Outcome)
    ensures o.Done? <==> ts == [] || Key(ts[|ts| - 1]) in navFaces
    ensures o.NoButton? ==> o.key == Key(ts[|ts| - 1])
  {
    if ts != [] && Key(ts[|ts| - 1]) !in navFaces then NoButton(Key(ts[|ts| - 1])) else Done
  }

  /**
   * A handler making the calls `rs` ends normally exactly when every key of
   * `rs` has a button; otherwise it throws for the first key of `rs` that none has.
   */
  lemma {:induction false} EndingTried(navFaces: seq<string>, rs: seq<Section>)
    ensures Ending(navFaces, Tried(navFaces, rs)).Done? <==> forall k :: 0 <= k < |rs| ==> Key(rs[k]) in navFaces
    ensures var o := Ending(navFaces, Tried(navFaces, rs));
      o.NoButton? ==> exists j :: 0 <= j < |rs| && o.key == Key(rs[j]) && Key(rs[j]) !in navFaces
                                  && forall i :: 0 <= i < j ==> Key(rs[i]) in navFaces
  {
    var ts := Tried(navFaces, rs);
    if Ending(navFaces, ts).NoButton? {
      var j := |ts| - 1;
      assert ts[j] == rs[j];
      assert forall i :: 0 <= i < j ==> ts[i] == rs[i];
    }
  }

  /** The cube's orientation after `rotateTo` for each face of `ts`, each one sampled at its own start. */
  function RotateAll(p: Orientation, ts: seq<Section>): (r: Orientation)
    ensures ts == [] ==> r == p
    ensures ts != [] ==> r.Slerp? && r.goal == RotateTarget(Key(ts[|ts| - 1])) && r.eased == 0.0
  {
    if ts == [] then p
    else Slerp(RotateAll(p, ts[..|ts| - 1]), RotateTarget(Key(ts[|ts| - 1])), 0.0)
  }

  /** The tweens `rotateTo` starts for the faces of `ts`, one after another, from pose `p`, at clock reading `now`. */
  function TweensOf(p: Orientation, ts: seq<Section>, now: real): (tws: seq<Tween>)
    ensures |tws| == |ts|
    ensures forall k :: 0 <= k < |ts| ==> tws[k].target == RotateTarget(Key(ts[k])) && tws[k].t0 == now
  {
    if ts == [] then []
    else TweensOf(p, ts[..|ts| - 1], now) + [Tween(RotateAll(p, ts[..|ts| - 1]), RotateTarget(Key(ts[|ts| - 1])), now)]
  }

  /** The removal timers of `n` tooltips created from serial `from` on, each firing at `at`, added to `timers`. */
  function Schedule(timers: map<nat, real>, from: nat, n: nat, at: real): map<nat, real>
  {
    if n == 0 then timers else Schedule(timers, from, n - 1, at)[from + n - 1 := at]
  }

  /** `Schedule` adds exactly the timers of serials `from` to `from + n - 1`, firing at `at`, and keeps the others. */
  lemma {:induction false} ScheduleTimers(timers: map<nat, real>, from: nat, n: nat, at: real)
    ensures forall s :: s in Schedule(timers, from, n, at) <==> s in timers || from <= s < from + n
    ensures forall s :: s in Schedule(timers, from, n, at) ==>
      Schedule(timers, from, n, at)[s] == if from <= s < from + n then at else timers[s]
  {
    if n > 0 {
      ScheduleTimers(timers, from, n - 1, at);
    }
  }

  /** `currentFace` after the calls `ts`: the last key among them that a button carries, else `cur`. */
  function Landed(navFaces: seq<string>, cur: string, ts: seq<Section>): (r: string)
    ensures r == cur || exists k :: 0 <= k < |ts| && r == Key(ts[k]) && r in navFaces
    ensures ts != [] && Key(ts[|ts| - 1]) in navFaces ==> r == Key(ts[|ts| - 1])
  {
    if ts == [] then cur
    else if Key(ts[|ts| - 1]) in navFaces then Key(ts[|ts| - 1])
    else Landed(navFaces, cur, ts[..|ts| - 1])
  }

  /** A handler whose calls `done` all got through tries the next call too. */
  lemma TriedSnoc(navFaces: seq<string>, done: seq<Section>, f: Section)
    requires forall k :: 0 <= k < |done| ==> Key(done[k]) in navFaces
    ensures Tried(navFaces, done + [f]) == done + [f]
  {
    if done != [] {
      assert (done + [f])[1..] == done[1..] + [f];
      TriedSnoc(navFaces, done[1..], f);
    }
  }

  /** Every tooltip in the document has its removal timer pending. */
  predicate Scheduled(tooltips: seq<Tooltip>, timers: map<nat, real>)
  {
    forall t :: t in tooltips ==> t.serial in timers
  }

  /** Every pending timer belongs to a tooltip already created. */
  predicate SerialsBelow(timers: map<nat, real>, nextSerial: nat)
  {
    forall s :: s in timers ==> s < nextSerial
  }

  /** Every active index is a navigation button. */
  predicate Buttons(active: set<nat>, navFaces: seq<string>)
  {
    forall i :: i in active ==> i < |navFaces|
  }

  /** A snapshot of every field of `App`, so contracts can say what did not change. */
  datatype Ui = Ui(
    currentFace: string,
    active: set<nat>,
    panel: Option<Section>,
    isHovering: bool,
    cursor: Cursor,
    autoRotate: bool,
    controlsAutoRotate: Option<bool>,
    particleEffects: bool,
    particlesVisible: Option<bool>,
    particleFrames: nat,
    pose: Orientation,
    tweens: seq<Tween>,
    tooltips: seq<Tooltip>,
    timers: map<nat, real>,
    nextSerial: nat,
    started: bool,
    ticking: bool)

  /** The page after one face's tooltip and `rotateTo`, from page `u` with navigation buttons `navFaces`. */
  function VisitUi(u: Ui, navFaces: seq<string>, f: Section, x: int, y: int, now: real): (v: Ui)
    ensures Buttons(v.active, navFaces)
    ensures |v.tooltips| == 1 && Scheduled(v.tooltips, v.timers)
    ensures SerialsBelow(u.timers, u.nextSerial) ==> SerialsBelow(v.timers, v.nextSerial)
  {
    var key := Key(f);
    u.(pose := Slerp(u.pose, RotateTarget(key), 0.0),
       tweens := u.tweens + [Tween(u.pose, RotateTarget(key), now)],
       panel := Some(f),
       active := if key in navFaces then {FirstButton(navFaces, key).value} else {},
       currentFace := if key in navFaces then key else u.currentFace,
       tooltips := [Tooltip(u.nextSerial, Description(f), y - 40, x + 10)],
       timers := u.timers[u.nextSerial := now + TooltipLife],
       nextSerial := u.nextSerial + 1)
  }

  /** A page whose changed fields are those of `VisitUi`, and whose other fields are `u`'s, is `VisitUi`'s page. */
  lemma VisitUiFields(u: Ui, v: Ui, navFaces: seq<string>, f: Section, x: int, y: int, now: real)
    requires v.pose == Slerp(u.pose, RotateTarget(Key(f)), 0.0)
    requires v.tweens == u.tweens + [Tween(u.pose, RotateTarget(Key(f)), now)]
    requires v.panel == Some(f)
    requires v.active == (if Key(f) in navFaces then {FirstButton(navFaces, Key(f)).value} else {})
    requires v.currentFace == (if Key(f) in navFaces then Key(f) else u.currentFace)
    requires v.tooltips == [Tooltip(u.nextSerial, Description(f), y - 40, x + 10)]
    requires v.timers == u.timers[u.nextSerial := now + TooltipLife]
    requires v.nextSerial == u.nextSerial + 1
    requires v.isHovering == u.isHovering && v.cursor == u.cursor && v.autoRotate == u.autoRotate
    requires v.controlsAutoRotate == u.controlsAutoRotate && v.particleEffects == u.particleEffects
    requires v.particlesVisible == u.particlesVisible && v.particleFrames == u.particleFrames
    requires v.started == u.started && v.ticking == u.ticking
    ensures v == VisitUi(u, navFaces, f, x, y, now)
  {
  }

  /** The page after the scene's `click` handler, step by step as the handler runs. */
  function ClickUi(u: Ui, navFaces: seq<string>, faceHit: Option<Section>, iconHit: Option<Section>,
                   x: int, y: int, now: real): (v: Ui)
    ensures Buttons(u.active, navFaces) ==> Buttons(v.active, navFaces)
    ensures |u.tooltips| <= 1 ==> |v.tooltips| <= 1
    ensures Scheduled(u.tooltips, u.timers) ==> Scheduled(v.tooltips, v.timers)
    ensures SerialsBelow(u.timers, u.nextSerial) ==> SerialsBelow(v.timers, v.nextSerial)
  {
    var hovered := u.isHovering && faceHit.Some?;
    var u1 := if hovered then VisitUi(u, navFaces, faceHit.value, x, y, now) else u;
    if hovered && Key(faceHit.value) !in navFaces then u1
    else if iconHit.Some? then VisitUi(u1, navFaces, iconHit.value, x, y, now)
    else u1.(pose := SpinY(u1.pose))
  }

  /** The page after the `rotateTo` calls `ts`, each behind its tooltip, one `VisitUi` after another. */
  function Visits(u: Ui, navFaces: seq<string>, ts: seq<Section>, x: int, y: int, now: real): (v: Ui)
    ensures Buttons(u.active, navFaces) ==> Buttons(v.active, navFaces)
    ensures |u.tooltips| <= 1 ==> |v.tooltips| <= 1
    ensures Scheduled(u.tooltips, u.timers) ==> Scheduled(v.tooltips, v.timers)
    ensures SerialsBelow(u.timers, u.nextSerial) ==> SerialsBelow(v.timers, v.nextSerial)
  {
    if ts == [] then u
    else VisitUi(Visits(u, navFaces, ts[..|ts| - 1], x, y, now), navFaces, ts[|ts| - 1], x, y, now)
  }

  /** After the calls `ts` the cube aims at the last one's target, and there is one new tween per call. */
  lemma {:induction false} VisitsRotate(u: Ui, navFaces: seq<string>, ts: seq<Section>, x: int, y: int, now: real)
    ensures Visits(u, navFaces, ts, x, y, now).pose == RotateAll(u.pose, ts)
    ensures Visits(u, navFaces, ts, x, y, now).tweens == u.tweens + TweensOf(u.pose, ts, now)
  {
    if ts != [] {
      VisitsRotate(u, navFaces, ts[..|ts| - 1], x, y, now);
    }
  }

  /** After the calls `ts`, `currentFace` is the last of their keys a button carries. */
  lemma {:induction false} VisitsLand(u: Ui, navFaces: seq<string>, ts: seq<Section>, x: int, y: int, now: real)
    ensures Visits(u, navFaces, ts, x, y, now).currentFace == Landed(navFaces, u.currentFace, ts)
  {
    if ts != [] {
      VisitsLand(u, navFaces, ts[..|ts| - 1], x, y, now);
    }
  }

  /** The calls `ts` show `|ts|` tooltips, serial after serial, each with its removal timer. */
  lemma {:induction false} VisitsSchedule(u: Ui, navFaces: seq<string>, ts: seq<Section>, x: int, y: int, now: real)
    ensures Visits(u, navFaces, ts, x, y, now).nextSerial == u.nextSerial + |ts|
    ensures Visits(u, navFaces, ts, x, y, now).timers == Schedule(u.timers, u.nextSerial, |ts|, now + TooltipLife)
  {
    if ts != [] {
      VisitsSchedule(u, navFaces, ts[..|ts| - 1], x, y, now);
    }
  }

  /**
   * After calls `ts`, the last face's panel and tooltip show and its button,
   * if any, is the only active one; the flags, hover state and loop never change.
   */
  lemma {:induction false} VisitsShow(u: Ui, navFaces: seq<string>, ts: seq<Section>, x: int, y: int, now: real)
    ensures var r := Visits(u, navFaces, ts, x, y, now);
      && (ts == [] ==> r == u)
      && (ts != [] ==> var last := ts[|ts| - 1];
            && r.panel == Some(last)
            && r.active == (if Key(last) in navFaces then {FirstButton(navFaces, Key(last)).value} else {})
            && r.tooltips == [Tooltip(u.nextSerial + |ts| - 1, Description(last), y - 40, x + 10)])
      && r.(pose := u.pose, tweens := u.tweens, currentFace := u.currentFace, panel := u.panel, active := u.active,
            tooltips := u.tooltips, nextSerial := u.nextSerial, timers := u.timers) == u
  {
    if ts != [] {
      VisitsShow(u, navFaces, ts[..|ts| - 1], x, y, now);
      VisitsSchedule(u, navFaces, ts[..|ts| - 1], x, y, now);
    }
  }

  /** A click whose hovered face has a key no button carries stops after that face. */
  lemma ClickThrows(u: Ui, navFaces: seq<string>, face: Section, iconHit: Option<Section>, x: int, y: int, now: real)
    requires u.isHovering && Key(face) !in navFaces
    ensures Tried(navFaces, ClickRotations(u.isHovering, Some(face), iconHit)) == [face]
    ensures ClickUi(u, navFaces, Some(face), iconHit, x, y, now) == Visits(u, navFaces, [face], x, y, now)
  {
    assert [face][..0] == [];
  }

  /** A click that hits an icon, after a hovered face whose key a button carries, if any, visits both. */
  lemma ClickIcon(u: Ui, navFaces: seq<string>, faceHit: Option<Section>, icon: Section, x: int, y: int, now: real)
    requires u.isHovering && faceHit.Some? ==> Key(faceHit.value) in navFaces
    ensures var done := if u.isHovering && faceHit.Some? then [faceHit.value] else [];
      && Tried(navFaces, ClickRotations(u.isHovering, faceHit, Some(icon))) == done + [icon]
      && ClickUi(u, navFaces, faceHit, Some(icon), x, y, now) == Visits(u, navFaces, done + [icon], x, y, now)
  {
    var done := if u.isHovering && faceHit.Some? then [faceHit.value] else [];
    TriedSnoc(navFaces, done, icon);
    if done != [] {
      assert done[..0] == [];
    }
    var u1 := if done != [] then VisitUi(u, navFaces, faceHit.value, x, y, now) else u;
    assert Visits(u, navFaces, done, x, y, now) == u1;
    assert (done + [icon])[..|done|] == done;
  }

  /** A click on no icon, after a hovered face whose key a button carries, if any, visits it and spins. */
  lemma ClickSpin(u: Ui, navFaces: seq<string>, faceHit: Option<Section>, x: int, y: int, now: real)
    requires u.isHovering && faceHit.Some? ==> Key(faceHit.value) in navFaces
    ensures var done := if u.isHovering && faceHit.Some? then [faceHit.value] else [];
      var sum := Visits(u, navFaces, done, x, y, now);
      && Tried(navFaces, ClickRotations(u.isHovering, faceHit, None)) == done
      && ClickUi(u, navFaces, faceHit, None, x, y, now) == sum.(pose := SpinY(sum.pose))
  {
    if u.isHovering && faceHit.Some? {
      assert [faceHit.value][..0] == [];
    }
  }

  /**
   * The step-by-step click handler agrees with the closed form of the calls
   * it gets through, plus the quarter turn of a click on no icon when nothing
   * threw.
   */
  lemma ClickSummary(u: Ui, navFaces: seq<string>, faceHit: Option<Section>, iconHit: Option<Section>,
                     x: int, y: int, now: real)
    ensures var ts := Tried(navFaces, ClickRotations(u.isHovering, faceHit, iconHit));
      var sum := Visits(u, navFaces, ts, x, y, now);
      ClickUi(u, navFaces, faceHit, iconHit, x, y, now)
      == if Ending(navFaces, ts).Done? && iconHit.None? then sum.(pose := SpinY(sum.pose)) else sum
  {
    if u.isHovering && faceHit.Some? && Key(faceHit.value) !in navFaces {
      ClickThrows(u, navFaces, faceHit.value, iconHit, x, y, now);
    } else if iconHit.Some? {
      ClickIcon(u, navFaces, faceHit, iconHit.value, x, y, now);
    } else {
      ClickSpin(u, navFaces, faceHit, x, y, now);
    }
  }

  /**
   * When a hovered face and an icon are both hit and both keys have buttons,
   * the icon's visit comes last: its key is the final `currentFace`, its
   * panel and tooltip show, and two tooltips were created.
   */
  lemma ClickIconWins(u: Ui, navFaces: seq<string>, face: Section, icon: Section, x: int, y: int, now: real)
    requires u.isHovering && Key(face) in navFaces && Key(icon) in navFaces
    ensures var r := ClickUi(u, navFaces, Some(face), Some(icon), x, y, now);
      && r.currentFace == Key(icon)
      && r.panel == Some(icon)
      && r.active == {FirstButton(navFaces, Key(icon)).value}
      && r.tooltips == [Tooltip(u.nextSerial + 1, Description(icon), y - 40, x + 10)]
      && r.nextSerial == u.nextSerial + 2
  {
    ClickIcon(u, navFaces, Some(face), icon, x, y, now);
    VisitsLand(u, navFaces, [face, icon], x, y, now);
    VisitsShow(u, navFaces, [face, icon], x, y, now);
    VisitsSchedule(u, navFaces, [face, icon], x, y, now);
  }

  class App {
    /** The `data-face` of every `.nav-btn`, in document order. */
    const navFaces: seq<string>

    var currentFace: string
    /** Indices into `navFaces` of the buttons whose class list holds `active`. */
    var active: set<nat>
    /** The section the panel shows; `None` while it holds the page's own markup. */
    var panel: Option<Section>
    var isHovering: bool
    var cursor: Cursor
    var autoRotate: bool
    /** `controls.autoRotate`; `None` until `main` creates the controls. */
    var controlsAutoRotate: Option<bool>
    var particleEffects: bool
    /** `particleSystem.visible`; `None` until `main` creates the particle system. */
    var particlesVisible: Option<bool>
    /** How many frames rotated the particle system. */
    var particleFrames: nat
    /** The cube's orientation. */
    var pose: Orientation
    /** The tweens whose `animate` is still scheduled for a next frame. */
    var tweens: seq<Tween>
    /** The tooltip elements in the document. */
    var tooltips: seq<Tooltip>
    /** Pending tooltip removal timers: serial of the tooltip, earliest firing time. */
    var timers: map<nat, real>
    var nextSerial: nat
    /** `main` has built the scene and registered the scene and navigation handlers. */
    var started: bool
    /** The `tick` loop runs. */
    var ticking: bool

    ghost function State(): Ui
      reads this
    {
      Ui(currentFace, active, panel, isHovering, cursor, autoRotate, controlsAutoRotate,
         particleEffects, particlesVisible, particleFrames, pose, tweens, tooltips, timers,
         nextSerial, started, ticking)
    }

    /**
     * The invariants the page keeps: each three.js mirror equals its flag
     * once it exists, the cursor is `pointer` exactly while hovering, at most
     * one tooltip is in the document and its timer is pending, and the
     * active buttons are buttons.
     */
    ghost predicate Valid()
      reads this
    {
      Settled() && Buttons(active, navFaces)
    }

    /** The invariants that do not speak of the cube, the panel or the buttons. */
    ghost predicate Settled()
      reads this`controlsAutoRotate, this`autoRotate, this`particlesVisible, this`particleEffects,
        this`isHovering, this`cursor, this`tooltips, this`timers, this`nextSerial, this`started, this`ticking
    {
      && (controlsAutoRotate.Some? ==> controlsAutoRotate.value == autoRotate)
      && (particlesVisible.Some? ==> particlesVisible.value == particleEffects)
      && (isHovering <==> cursor == PointerCursor)
      && |tooltips| <= 1
      && Scheduled(tooltips, timers)
      && SerialsBelow(timers, nextSerial)
      && (started ==> controlsAutoRotate.Some? && particlesVisible.Some?)
      && (ticking ==> started)
      && (!started ==> !isHovering)
    }

    /** The module's top level before `main` runs: `currentFace`, `autoRotate` and `particleEffects` initialised. */
    constructor (navFaces: seq<string>, initiallyActive: set<nat>)
      requires Buttons(initiallyActive, navFaces)
      ensures Valid()
      ensures this.navFaces == navFaces
      ensures State() == Ui("profile", initiallyActive, None, false, Unset, false, None, true, None, 0,
                            Euler(Pose(0, 0, 0)), [], [], map[], 0, false, false)
    {
      this.navFaces := navFaces;
      currentFace := "profile";
      active := initiallyActive;
      panel := None;
      isHovering := false;
      cursor := Unset;
      autoRotate := false;
      controlsAutoRotate := None;
      particleEffects := true;
      particlesVisible := None;
      particleFrames := 0;
      pose := Euler(Pose(0, 0, 0));
      tweens := [];
      tooltips := [];
      timers := map[];
      nextSerial := 0;
      started := false;
      ticking := false;
    }

    /** The auto-rotate checkbox's `change` handler. */
    method OnAutoRotateChange(checked: bool)
      requires Valid()
      modifies this`autoRotate, this`controlsAutoRotate
      ensures Valid()
      ensures autoRotate == checked
      ensures controlsAutoRotate == (if old(controlsAutoRotate).Some? then Some(checked) else None)
    {
      autoRotate := checked;
      if controlsAutoRotate.Some? {
        controlsAutoRotate := Some(autoRotate);
      }
    }

    /** The particle-effects checkbox's `change` handler. */
    method OnParticleEffectsChange(checked: bool)
      requires Valid()
      modifies this`particleEffects, this`particlesVisible
      ensures Valid()
      ensures particleEffects == checked
      ensures particlesVisible == (if old(particlesVisible).Some? then Some(checked) else None)
    {
      particleEffects := checked;
      if particlesVisible.Some? {
        particlesVisible := Some(particleEffects);
      }
    }

    /**
     * `showTooltip(text, x, y)`: the existing tooltip is removed, a new one is
     * placed 40 pixels above and 10 to the right of the pointer, and its
     * removal is scheduled 2000 ms later.
     */
    method ShowTooltip(text: string, x: int, y: int, now: real)
      requires Valid()
      modifies this`tooltips, this`timers, this`nextSerial
      ensures Valid()
      ensures tooltips == [Tooltip(old(nextSerial), text, y - 40, x + 10)]
      ensures timers == old(timers)[old(nextSerial) := now + TooltipLife]
      ensures nextSerial == old(nextSerial) + 1
    {
      if |tooltips| > 0 {
        tooltips := tooltips[1..];
      }
      tooltips := tooltips + [Tooltip(nextSerial, text, y - 40, x + 10)];
      timers := timers[nextSerial := now + TooltipLife];
      nextSerial := nextSerial + 1;
    }

    /** A tooltip's removal timer fires: it removes its own tooltip if that is still in the document. */
    method ExpireTooltip(serial: nat, now: real)
      requires Valid()
      requires serial in timers && timers[serial] <= now
      modifies this`tooltips, this`timers
      ensures Valid()
      ensures timers == old(timers) - {serial}
      ensures forall t :: t in tooltips <==> t in old(tooltips) && t.serial != serial
    {
      timers := timers - {serial};
      if |tooltips| > 0 && tooltips[0].serial == serial {
        tooltips := [];
      }
    }

    /** `pick()`, as each frame of the `tick` loop calls it: hovering, and the `pointer` cursor, exactly while the ray hits the cube or an icon. */
    method Pick(cubeHit: bool, iconHit: bool)
      requires Valid() && ticking
      modifies this`isHovering, this`cursor
      ensures Valid()
      ensures isHovering == (cubeHit || iconHit)
      ensures cursor == (if cubeHit || iconHit then PointerCursor else if old(isHovering) then DefaultCursor else old(cursor))
    {
      if cubeHit || iconHit {
        if !isHovering {
          cursor := PointerCursor;
          isHovering := true;
        }
      } else {
        if isHovering {
          cursor := DefaultCursor;
          isHovering := false;
        }
      }
    }

    /**
     * `rotateTo(faceKey)`: starts a new tween from the current pose to the
     * key's target (an unknown key aims at the profile pose) without cancelling
     * the tweens already running or skipping a repeated key, samples it once at
     * once, renders the key's panel if the key is a section, deactivates every
     * navigation button and activates the first one carrying the key. If no
     * button carries it, the lookup throws before `currentFace` is assigned.
     * Every caller passes a `faceKey`, a lower-case word, so the selector
     * `[data-face="key"]` compares plain strings.
     */
    method RotateTo(key: string, now: real) returns (outcome: Outcome)
      requires Valid()
      requires LowerWord(key)
      modifies this`pose, this`tweens, this`panel, this`active, this`currentFace
      ensures Valid()
      ensures outcome == (if key in navFaces then Done else NoButton(key))
      ensures pose == Slerp(old(pose), RotateTarget(key), 0.0)
      ensures tweens == old(tweens) + [Tween(old(pose), RotateTarget(key), now)]
      ensures panel == (if SectionOf(key).Some? then SectionOf(key) else old(panel))
      ensures active == (if key in navFaces then {FirstButton(navFaces, key).value} else {})
      ensures currentFace == (if key in navFaces then key else old(currentFace))
    {
      var tween := Tween(pose, RotateTarget(key), now);
      var frame := Sample(tween, now);
      pose := frame.pose;
      if frame.again {
        tweens := tweens + [tween];
      }
      var section := SectionOf(key);
      if section.Some? {
        panel := section;
      }
      active := {};
      var button := FirstButton(navFaces, key);
      if button.None? {
        return NoButton(key);
      }
      active := {button.value};
      currentFace := key;
      outcome := Done;
    }

    /**
     * One later call of the `animate` of running tween `i`, at clock reading
     * `now`: the cube gets the tween's sample, and a finished tween requests
     * no further frame.
     */
    method Animate(i: nat, now: real)
      requires Valid()
      requires i < |tweens| && tweens[i].t0 <= now
      modifies this`pose, this`tweens
      ensures Valid()
      ensures pose == Sample(old(tweens[i]), now).pose
      ensures tweens == if Sample(old(tweens[i]), now).again then old(tweens) else old(tweens[..i] + tweens[i + 1..])
      ensures now - old(tweens[i]).t0 >= Duration ==> pose == Quaternion(old(tweens[i]).target)
    {
      var frame := Sample(tweens[i], now);
      pose := frame.pose;
      if !frame.again {
        tweens := tweens[..i] + tweens[i + 1..];
      }
    }

    /**
     * A navigation button's `click` handler: the cube's angles are set from
     * the button's key (left alone for a key outside the table), and exactly
     * that button becomes active; `currentFace` and the panel are not touched.
     */
    method OnNavClick(i: nat)
      requires Valid() && started
      requires i < |navFaces|
      modifies this`pose, this`active
      ensures Valid()
      ensures active == {i}
      ensures pose == (if NavTarget(navFaces[i]).Some? then Euler(NavTarget(navFaces[i]).value) else old(pose))
      ensures currentFace == old(currentFace) && panel == old(panel)
    {
      var key := navFaces[i];
      var angles := NavTarget(key);
      if angles.Some? {
        pose := Euler(angles.value);
      }
      // the `forEach` that removes `active` from every button, before the clicked one gets it
      active := {};
      active := {i};
    }

    /**
     * `main` once `data.json` has loaded: the orbit controls take the
     * auto-rotate flag, the particle system the particle-effects flag, the
     * handlers are registered, the cube turns to the profile face, and the
     * `tick` loop starts unless that `rotateTo` threw.
     */
    method Init(now: real) returns (outcome: Outcome)
      requires Valid() && !started
      modifies this`controlsAutoRotate, this`particlesVisible, this`isHovering, this`started, this`ticking
      modifies this`pose, this`tweens, this`panel, this`active, this`currentFace
      ensures Valid() && started
      ensures controlsAutoRotate == Some(autoRotate) && particlesVisible == Some(particleEffects)
      ensures !isHovering
      ensures outcome == (if Key(Profile) in navFaces then Done else NoButton(Key(Profile)))
      ensures ticking <==> outcome.Done?
      ensures pose == Slerp(old(pose), RotateTarget(Key(Profile)), 0.0)
      ensures tweens == old(tweens) + [Tween(old(pose), RotateTarget(Key(Profile)), now)]
      ensures panel == Some(Profile)
      ensures active == (if outcome.Done? then {FirstButton(navFaces, Key(Profile)).value} else {})
      ensures currentFace == (if outcome.Done? then Key(Profile) else old(currentFace))
    {
      Start();
      outcome := RotateTo(Key(Profile), now);
      SectionOfKey(Profile);
      RunTicks(outcome.Done?);
    }

    /** The scene set-up of `main`: the controls and the particle system are created from the flags. */
    method Start()
      requires Valid() && !started
      modifies this`controlsAutoRotate, this`particlesVisible, this`isHovering, this`started
      ensures Valid() && started
      ensures controlsAutoRotate == Some(autoRotate) && particlesVisible == Some(particleEffects)
      ensures !isHovering
    {
      controlsAutoRotate := Some(autoRotate);
      particlesVisible := Some(particleEffects);
      isHovering := false;
      started := true;
    }

    /** The last line of `main`: the `tick` loop starts, or does not when `go` is false. */
    method RunTicks(go: bool)
      requires Valid() && started
      modifies this`ticking
      ensures Valid()
      ensures ticking == go
    {
      ticking := go;
    }

    /**
     * The scene's `click` handler. A hovered cube face shows its tooltip and
     * turns the cube to it; then an icon under the pointer does the same, and
     * a click on no icon adds a quarter turn about y. A `rotateTo` that throws
     * ends the handler there.
     */
    method OnSceneClick(faceHit: Option<Section>, iconHit: Option<Section>, x: int, y: int, now: real)
      returns (outcome: Outcome)
      requires Valid() && started
      modifies this`pose, this`tweens, this`panel, this`active, this`currentFace
      modifies this`tooltips, this`timers, this`nextSerial
      ensures Valid()
      ensures outcome == Ending(navFaces, Tried(navFaces, ClickRotations(old(isHovering), faceHit, iconHit)))
      ensures State() == ClickUi(old(State()), navFaces, faceHit, iconHit, x, y, now)
    {
      ghost var rs := ClickRotations(isHovering, faceHit, iconHit);
      outcome := Done;
      if isHovering && faceHit.Some? {
        var face := faceHit.value;
        outcome := Visit(face, x, y, now);
        if outcome.NoButton? {
          assert Tried(navFaces, rs) == [face];
          return;
        }
      }
      ghost var done: seq<Section> := if old(isHovering) && faceHit.Some? then [faceHit.value] else [];
      assert done + (if iconHit.Some? then [iconHit.value] else []) == rs;
      if iconHit.Some? {
        var icon := iconHit.value;
        outcome := Visit(icon, x, y, now);
        TriedSnoc(navFaces, done, icon);
      } else {
        pose := SpinY(pose);
        assert Tried(navFaces, rs) == done;
      }
    }

    /** What a click does for one face, cube face or icon alike: its tooltip at the pointer, then `rotateTo` its key. */
    method Visit(face: Section, x: int, y: int, now: real) returns (outcome: Outcome)
      requires Valid() && started
      modifies this`pose, this`tweens, this`panel, this`active, this`currentFace
      modifies this`tooltips, this`timers, this`nextSerial
      ensures Valid()
      ensures outcome == (if Key(face) in navFaces then Done else NoButton(Key(face)))
      ensures State() == VisitUi(old(State()), navFaces, face, x, y, now)
    {
      ShowTooltip(Description(face), x, y, now);
      outcome := RotateTo(Key(face), now);
      SectionOfKey(face);
      VisitUiFields(old(State()), State(), navFaces, face, x, y, now);
    }

    /**
     * One frame of the `tick` loop: `pick()`, a turn of the particle system
     * exactly while it is visible, and the cube drift for auto-rotate without
     * orbit auto-rotation, which never happens because the controls always
     * mirror the flag.
     */
    method Tick(cubeHit: bool, iconHit: bool)
      requires Valid() && ticking
      modifies this`isHovering, this`cursor, this`particleFrames, this`pose
      ensures Valid()
      ensures isHovering == (cubeHit || iconHit)
      ensures cursor == (if cubeHit || iconHit then PointerCursor else if old(isHovering) then DefaultCursor else old(cursor))
      ensures particleFrames == old(particleFrames) + (if particlesVisible == Some(true) then 1 else 0)
      ensures pose == old(pose)
    {
      Pick(cubeHit, iconHit);
      if particlesVisible.Some? && particleEffects {
        particleFrames := particleFrames + 1;
      }
      var drift := autoRotate && !controlsAutoRotate.value;
      pose := if drift then Drifted(pose) else pose;
    }
  }
}
