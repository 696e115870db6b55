/** The headset present gate of src/api/vidext.c. Each buffer swap stages one eye's image; a
    plugin that renders both eyes marks its mid-frame swaps as stage-only, and from then on a
    pair may only be presented when the right eye has just been staged. */
module StereoGate {
  import opened Common

  /** What the plugin reports at a swap: eye (-1 unknown, 0 left, 1 right) and swap mode (1 for
      stage-only), with the number of the game frame that the image shows. */
  datatype Swap = Swap(eye: int, mode: int, frame: nat)

  /** A pair of images that the headset was given, by frame number. */
  datatype Pair = Pair(left: Option<nat>, right: Option<nat>)

  datatype Event =
    | SetMode(wanted: bool, up: bool, buffer: bool)
    | SwapBuffers(swap: Swap)
    | Quit

  /** The file's statics, the images the compositor holds, and what was presented so far. */
  datatype State = State(active: bool, dual_seen: bool, left: Option<nat>, right: Option<nat>, shown: seq<Pair>)

  function Start(): State { State(false, false, None, None, []) }

  function Eye(s: Swap): int { if s.eye < 0 then 0 else s.eye }

  function Stage(v: State, s: Swap): State {
    if Eye(s) == 0 then v.(left := Some(s.frame)) else v.(right := Some(s.frame))
  }

  /** VidExt_SetVideoMode, VidExt_GL_SwapBuffers and VidExt_Quit, as far as the gate goes. */
  function Step(v: State, e: Event): State {
    match e
    case SetMode(wanted, up, buffer) => if !v.active && wanted && up then v.(active := buffer) else v
    case SwapBuffers(s) =>
      if !v.active then v
      else
        var hold := v.dual_seen && Eye(s) == 0 && s.mode != 1;
        var w := Stage(v, s);
        if s.mode == 1 then w.(dual_seen := true)
        else if hold then w
        else w.(shown := w.shown + [Pair(w.left, w.right)])
    case Quit => if v.active then v.(active := false, dual_seen := false, left := None, right := None) else v
  }

  function Run(v: State, es: seq<Event>): State {
    if es == [] then v else Step(Run(v, es[..|es| - 1]), es[|es| - 1])
  }

  predicate Presents(v: State, e: Event) { Step(v, e).shown != v.shown }

  /** The latch is only ever set while the compositor is up. */
  lemma {:induction false} LatchNeedsActive(es: seq<Event>)
    ensures Run(Start(), es).dual_seen ==> Run(Start(), es).active
    decreases |es|
  {
    if es != [] { LatchNeedsActive(es[..|es| - 1]); }
  }

  /** A stage-only swap has happened since the compositor came up. */
  ghost predicate Staged(es: seq<Event>, i: nat)
    requires i <= |es|
  {
    exists k :: 0 <= k < i && StagesAt(es, k) && forall j :: k < j < i ==> !es[j].Quit?
  }

  /** The latch says exactly that. */
  lemma {:induction false} LatchIsStaged(es: seq<Event>, i: nat)
    requires i <= |es|
    ensures Run(Start(), es[..i]).dual_seen <==> Staged(es, i)
    decreases i
  {
    if i > 0 {
      LatchIsStaged(es, i - 1);
      LatchNeedsActive(es[..i - 1]);
      RunNext(es, i);
      StagedNext(es, i);
    }
  }

  lemma RunNext(es: seq<Event>, i: nat)
    requires 0 < i <= |es|
    ensures Run(Start(), es[..i]) == Step(Run(Start(), es[..i - 1]), es[i - 1])
  {
    assert es[..i][..i - 1] == es[..i - 1];
  }

  /** Event `k` stages while the compositor is up. */
  ghost predicate StagesAt(es: seq<Event>, k: nat)
    requires k < |es|
  {
    es[k].SwapBuffers? && es[k].swap.mode == 1 && Run(Start(), es[..k]).active
  }

  lemma StagedNext(es: seq<Event>, i: nat)
    requires 0 < i <= |es|
    ensures Staged(es, i) <==> StagesAt(es, i - 1) || (Staged(es, i - 1) && !es[i - 1].Quit?)
  {
    if Staged(es, i) {
      var k :| 0 <= k < i && StagesAt(es, k) && forall j :: k < j < i ==> !es[j].Quit?;
      if k < i - 1 { assert Staged(es, i - 1); }
    }
    if StagesAt(es, i - 1) { assert Staged(es, i); }
    if Staged(es, i - 1) && !es[i - 1].Quit? {
      var k :| 0 <= k < i - 1 && StagesAt(es, k) && forall j :: k < j < i - 1 ==> !es[j].Quit?;
      assert forall j :: k < j < i ==> !es[j].Quit?;
    }
  }

  /** Once staging has been seen, a pair is presented exactly at present-mode swaps of the right
      eye; before that, at every present-mode swap. */
  lemma PresentsIff(es: seq<Event>, i: nat)
    requires i < |es|
    ensures var v := Run(Start(), es[..i]);
            Presents(v, es[i]) <==>
            v.active && es[i].SwapBuffers? && es[i].swap.mode != 1 && (Staged(es, i) ==> Eye(es[i].swap) != 0)
  {
    LatchIsStaged(es, i);
    var v := Run(Start(), es[..i]);
    assert es[i].SwapBuffers? ==> forall p: Pair :: v.shown + [p] != v.shown by {
      forall p: Pair ensures v.shown + [p] != v.shown { assert |v.shown + [p]| != |v.shown|; }
    }
  }

  /** The compositor is up before event `i`: some mode set brought it up, and no Quit followed. */
  ghost predicate Up(es: seq<Event>, i: nat)
    requires i <= |es|
  {
    exists k :: 0 <= k < i && BringsUp(es[k]) && forall j :: k < j < i ==> !es[j].Quit?
  }

  predicate BringsUp(e: Event) { e.SetMode? && e.wanted && e.up && e.buffer }

  lemma {:induction false} UpIsActive(es: seq<Event>, i: nat)
    requires i <= |es|
    ensures Run(Start(), es[..i]).active <==> Up(es, i)
    decreases i
  {
    if i > 0 {
      UpIsActive(es, i - 1);
      RunNext(es, i);
      UpNext(es, i);
    }
  }

  lemma UpNext(es: seq<Event>, i: nat)
    requires 0 < i <= |es|
    ensures Up(es, i) <==> BringsUp(es[i - 1]) || (Up(es, i - 1) && !es[i - 1].Quit?)
  {
    if Up(es, i) {
      var k :| 0 <= k < i && BringsUp(es[k]) && forall j :: k < j < i ==> !es[j].Quit?;
      if k < i - 1 { assert Up(es, i - 1); }
    }
    if BringsUp(es[i - 1]) { assert Up(es, i); }
    if Up(es, i - 1) && !es[i - 1].Quit? {
      var k :| 0 <= k < i - 1 && BringsUp(es[k]) && forall j :: k < j < i - 1 ==> !es[j].Quit?;
      assert forall j :: k < j < i ==> !es[j].Quit?;
    }
  }

  /** Event `k` is a swap tagged left, in either mode, while the compositor is up. */
  ghost predicate LeftAt(es: seq<Event>, k: nat)
    requires k < |es|
  {
    es[k].SwapBuffers? && Eye(es[k].swap) == 0 && Up(es, k)
  }

  /** Event `k` is the last such swap before event `i`, and no Quit came since. */
  ghost predicate LastLeft(es: seq<Event>, i: nat, k: nat)
    requires i <= |es|
  {
    k < i && LeftAt(es, k) && forall j :: k < j < i ==> !LeftAt(es, j) && !es[j].Quit?
  }

  /** The left image at hand is that of the last swap tagged left. */
  lemma {:induction false} LeftIsLast(es: seq<Event>, i: nat, k: nat)
    requires i <= |es| && LastLeft(es, i, k)
    ensures Run(Start(), es[..i]).left == Some(es[k].swap.frame)
    decreases i
  {
    RunNext(es, i);
    UpIsActive(es, i - 1);
    if k < i - 1 {
      assert !LeftAt(es, i - 1);
      LeftIsLast(es, i - 1, k);
    }
  }

  /** The image of an eye before event `i`, from the events alone: the last one swapped for it while
      the compositor was up, and none after a Quit. */
  ghost function Image(es: seq<Event>, i: nat, rightEye: bool): Option<nat>
    requires i <= |es|
  {
    if i == 0 then None
    else if !Up(es, i - 1) then Image(es, i - 1, rightEye)
    else match es[i - 1]
      case Quit => None
      case SwapBuffers(s) => if rightEye == (s.eye > 0) then Some(s.frame) else Image(es, i - 1, rightEye)
      case SetMode(_, _, _) => Image(es, i - 1, rightEye)
  }

  lemma {:induction false} ImagesAre(es: seq<Event>, i: nat)
    requires i <= |es|
    ensures Run(Start(), es[..i]).left == Image(es, i, false) && Run(Start(), es[..i]).right == Image(es, i, true)
    decreases i
  {
    if i > 0 {
      ImagesAre(es, i - 1);
      UpIsActive(es, i - 1);
      RunNext(es, i);
    }
  }

  /** What the headset is given: at a swap that presents, the images of both eyes after it. */
  lemma ShownGrows(es: seq<Event>, i: nat)
    requires i < |es|
    ensures Run(Start(), es[..i + 1]).shown == Run(Start(), es[..i]).shown +
            if Up(es, i) && es[i].SwapBuffers? && es[i].swap.mode != 1 && (Staged(es, i) ==> es[i].swap.eye > 0)
            then [Pair(Image(es, i + 1, false), Image(es, i + 1, true))] else []
  {
    PresentsIff(es, i);
    UpIsActive(es, i);
    ImagesAre(es, i + 1);
    RunNext(es, i + 1);
  }

  /** Whenever the right eye is swapped while the compositor is up, the last swap tagged left
      showed the same game frame. Swaps tagged left may come in either mode, any number of times. */
  ghost predicate Paired(es: seq<Event>) {
    forall i :: 0 <= i < |es| && es[i].SwapBuffers? && Eye(es[i].swap) != 0 && Up(es, i) ==> PairedAt(es, i)
  }

  ghost predicate PairedAt(es: seq<Event>, i: nat)
    requires i < |es| && es[i].SwapBuffers?
  {
    exists k: nat :: LastLeft(es, i, k) && es[k].swap.frame == es[i].swap.frame
  }

  /** Pairs added by event `i`. */
  function ShownAt(es: seq<Event>, i: nat): seq<Pair>
    requires i < |es|
  {
    var v := Run(Start(), es[..i]);
    if Presents(v, es[i]) then [Pair(Stage(v, es[i].swap).left, Stage(v, es[i].swap).right)] else []
  }

  /** After the first stage-only swap and until Quit, every presented pair is of one frame. */
  lemma PairsAreCoherent(es: seq<Event>, i: nat)
    requires i < |es| && Paired(es) && Staged(es, i)
    ensures forall p :: p in ShownAt(es, i) ==> p.left == p.right && p.left.Some?
    ensures Run(Start(), es[..i + 1]).shown == Run(Start(), es[..i]).shown + ShownAt(es, i)
  {
    PresentsIff(es, i);
    RunNext(es, i + 1);
    UpIsActive(es, i);
    if Presents(Run(Start(), es[..i]), es[i]) {
      assert PairedAt(es, i);
      var k: nat :| LastLeft(es, i, k) && es[k].swap.frame == es[i].swap.frame;
      LeftIsLast(es, i, k);
    }
  }

  /** A plugin that never stages is presented at every swap while the headset is up. */
  lemma MonoPresentsAlways(es: seq<Event>, i: nat)
    requires i < |es| && es[i].SwapBuffers? && Run(Start(), es[..i]).active
    requires forall k :: 0 <= k <= i && es[k].SwapBuffers? ==> es[k].swap.mode != 1
    ensures Presents(Run(Start(), es[..i]), es[i])
  {
    PresentsIff(es, i);
  }

  /** The code, with the readback and the compositor calls reduced to the frame numbers. */
  class VidExt {
    var l_vr_active: bool
    var l_vr_dual_seen: bool
    var left: Option<nat>
    var right: Option<nat>
    var shown: seq<Pair>

    ghost function View(): State
      reads this
    {
      State(l_vr_active, l_vr_dual_seen, left, right, shown)
    }

    constructor ()
      ensures View() == Start()
    {
      l_vr_active, l_vr_dual_seen, left, right, shown := false, false, None, None, [];
    }

    /** VidExt_SetVideoMode: bring the compositor up if wanted. */
    method SetVideoMode(wanted: bool, up: bool, buffer: bool)
      modifies this
      ensures View() == Step(old(View()), SetMode(wanted, up, buffer))
    {
      if !l_vr_active && wanted {
        if up { l_vr_active := buffer; }
      }
    }

    /** VidExt_GL_SwapBuffers; `swapped` is false when the window swap is skipped. */
    method GLSwapBuffers(s: Swap) returns (swapped: bool)
      modifies this
      ensures View() == Step(old(View()), SwapBuffers(s))
      ensures swapped <==> !(old(l_vr_active) && s.mode == 1)
    {
      if l_vr_active {
        var eye := s.eye;
        if eye < 0 { eye := 0; }
        var hold_present := l_vr_dual_seen && eye == 0 && s.mode != 1;
        if eye == 0 { left := Some(s.frame); } else { right := Some(s.frame); }
        if s.mode == 1 {
          l_vr_dual_seen := true;
          return false;
        }
        if !hold_present { shown := shown + [Pair(left, right)]; }
      }
      return true;
    }

    /** VidExt_Quit */
    method QuitVideo()
      modifies this
      ensures View() == Step(old(View()), Quit)
    {
      if l_vr_active {
        l_vr_active, l_vr_dual_seen, left, right := false, false, None, None;
      }
    }
  }
}
