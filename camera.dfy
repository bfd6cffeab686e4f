/** The view's camera position and the key-down handling of the main loop. */
module Camera {
  import opened Basics

  /** SDL key codes of the six camera keys (each equals the letter's ASCII code). */
  const SDLK_a: int := 97
  const SDLK_d: int := 100
  const SDLK_e: int := 101
  const SDLK_q: int := 113
  const SDLK_s: int := 115
  const SDLK_w: int := 119

  /** The events the main loop distinguishes; every other event type is `OtherEvent`. */
  datatype Event = Quit | KeyDown(sym: int) | KeyUp(sym: int) | OtherEvent

  /** `View`, reduced to the fields this program reads or changes without floating point. */
  class View {
    const id: U32
    var cameraPos: Vec3<int>
    const width: nat
    const height: nat

    constructor ()
      ensures id == 0 && cameraPos == Vec3(0, 0, 0) && width == 800 && height == 600
    {
      id := 0;
      cameraPos := Vec3(0, 0, 0);
      width := 800;
      height := 600;
    }
  }

  predicate IsCameraKey(sym: int)
  {
    sym == SDLK_a || sym == SDLK_d || sym == SDLK_e || sym == SDLK_q || sym == SDLK_w || sym == SDLK_s
  }

  /** The camera position after one key-down: a/d move z, q/e move y, s/w move x, by one. */
  function KeyStep(p: Vec3<int>, sym: int): (q: Vec3<int>)
    ensures sym == SDLK_a || sym == SDLK_d ==>
              q.x == p.x && q.y == p.y && q.z == p.z + (if sym == SDLK_d then 1 else -1)
    ensures sym == SDLK_q || sym == SDLK_e ==>
              q.x == p.x && q.z == p.z && q.y == p.y + (if sym == SDLK_e then 1 else -1)
    ensures sym == SDLK_s || sym == SDLK_w ==>
              q.y == p.y && q.z == p.z && q.x == p.x + (if sym == SDLK_w then 1 else -1)
    ensures !IsCameraKey(sym) ==> q == p
  {
    if sym == SDLK_a then p.(z := p.z - 1)
    else if sym == SDLK_d then p.(z := p.z + 1)
    else if sym == SDLK_e then p.(y := p.y + 1)
    else if sym == SDLK_q then p.(y := p.y - 1)
    else if sym == SDLK_w then p.(x := p.x + 1)
    else if sym == SDLK_s then p.(x := p.x - 1)
    else p
  }

  /** Each key of a pair undoes the other. */
  lemma KeyPairsCancel(p: Vec3<int>)
    ensures KeyStep(KeyStep(p, SDLK_a), SDLK_d) == p && KeyStep(KeyStep(p, SDLK_d), SDLK_a) == p
    ensures KeyStep(KeyStep(p, SDLK_q), SDLK_e) == p && KeyStep(KeyStep(p, SDLK_e), SDLK_q) == p
    ensures KeyStep(KeyStep(p, SDLK_s), SDLK_w) == p && KeyStep(KeyStep(p, SDLK_w), SDLK_s) == p
  {
  }

  /** The camera position after a batch of events, handled first to last. */
  function ApplyEvents(p: Vec3<int>, events: seq<Event>): (q: Vec3<int>)
    ensures (forall k :: 0 <= k < |events| && events[k].KeyDown? ==> !IsCameraKey(events[k].sym)) ==> q == p
  {
    if |events| == 0 then p
    else
      var before := ApplyEvents(p, events[..|events| - 1]);
      match events[|events| - 1]
      case KeyDown(sym) => KeyStep(before, sym)
      case _ => before
  }

  /** How many key-downs of `sym` the batch holds. */
  function Presses(events: seq<Event>, sym: int): nat
  {
    multiset(events)[KeyDown(sym)]
  }

  /** A batch moves each coordinate by its forward presses minus its backward presses, in any order. */
  lemma {:induction false} ApplyEventsCounts(p: Vec3<int>, events: seq<Event>)
    ensures ApplyEvents(p, events) == Vec3(
              p.x + Presses(events, SDLK_w) - Presses(events, SDLK_s),
              p.y + Presses(events, SDLK_e) - Presses(events, SDLK_q),
              p.z + Presses(events, SDLK_d) - Presses(events, SDLK_a))
  {
    if |events| > 0 {
      var init, last := events[..|events| - 1], events[|events| - 1];
      ApplyEventsCounts(p, init);
      assert events == init + [last];
      assert multiset(events) == multiset(init) + multiset{last};
    }
  }

  /** The key switch of the main loop, changing `view.cameraPos` in place. */
  method HandleKeyDown(view: View, sym: int)
    modifies view
    ensures view.cameraPos == KeyStep(old(view.cameraPos), sym)
  {
    if sym == SDLK_a {
      view.cameraPos := view.cameraPos.(z := view.cameraPos.z - 1);
    } else if sym == SDLK_d {
      view.cameraPos := view.cameraPos.(z := view.cameraPos.z + 1);
    } else if sym == SDLK_e {
      view.cameraPos := view.cameraPos.(y := view.cameraPos.y + 1);
    } else if sym == SDLK_q {
      view.cameraPos := view.cameraPos.(y := view.cameraPos.y - 1);
    } else if sym == SDLK_w {
      view.cameraPos := view.cameraPos.(x := view.cameraPos.x + 1);
    } else if sym == SDLK_s {
      view.cameraPos := view.cameraPos.(x := view.cameraPos.x - 1);
    }
  }

  /** One pass of the event loop over the pending events; a quit does not stop the rest being handled. */
  method PollEvents(view: View, events: seq<Event>, running: bool) returns (stillRunning: bool)
    modifies view
    ensures stillRunning == (running && Quit !in events)
    ensures view.cameraPos == ApplyEvents(old(view.cameraPos), events)
  {
    stillRunning := running;
    var i := 0;
    while i < |events|
      invariant 0 <= i <= |events|
      invariant stillRunning == (running && Quit !in events[..i])
      invariant view.cameraPos == ApplyEvents(old(view.cameraPos), events[..i])
    {
      assert events[..i + 1][..i] == events[..i];
      assert events[..i + 1] == events[..i] + [events[i]];
      match events[i] {
        case Quit =>
          stillRunning := false;
        case KeyDown(sym) =>
          HandleKeyDown(view, sym);
        case KeyUp(_) =>
        case OtherEvent =>
      }
      i := i + 1;
    }
    assert events[..i] == events;
  }
}
