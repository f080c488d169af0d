/** The enrollment page's pose script (`onHandleFaceDirection`, the `onBack`
    reset, and the per-frame pipeline that feeds them). The page walks a fixed
    list of actions; each needs its direction held for more than `count`
    consecutive frames, after which a photo is taken and the next action
    begins. Leaving the circle restarts the whole script. */
module AddFacePage {
  import opened Options
  import opened Vision
  import opened ImageUtils
  import opened FaceMethods

  datatype AddFaceState = Camera | Loading | Preview

  /** The enrollment script. */
  const FaceActionList: seq<FaceAction> := [
    FaceAction(Forward, 20),
    FaceAction(Left, 20),
    FaceAction(Right, 20),
    FaceAction(Up, 20),
    FaceAction(Down, 20)
  ]

  /** The value of `indexAction` once every action is done. */
  const Completed := -1

  /** The page's sequencing state: page, `indexAction`, `countDirection`. */
  datatype Sequencer = Sequencer(page: AddFaceState, indexAction: int, countDirection: int)

  const Initial := Sequencer(Camera, 0, 0)

  /** `faceActionList[indexAction]` can be read whenever the index is not the
      sentinel. */
  predicate IndexInRange(indexAction: int)
  {
    indexAction == Completed || 0 <= indexAction < |FaceActionList|
  }

  /** The invariant the page keeps: the index is the sentinel or a valid
      position, the streak never exceeds the current action's count and is 0 at
      the sentinel, and only a finished script leaves the camera page. */
  ghost predicate Inv(s: Sequencer)
  {
    IndexInRange(s.indexAction) &&
    0 <= s.countDirection &&
    (s.indexAction != Completed ==> s.countDirection <= FaceActionList[s.indexAction].count) &&
    (s.indexAction == Completed ==> s.countDirection == 0) &&
    (s.page != Camera ==> s.indexAction == Completed)
  }

  /** The number of actions completed since the script last started. */
  function Progress(s: Sequencer): nat
    requires IndexInRange(s.indexAction)
  {
    if s.indexAction == Completed then |FaceActionList| else s.indexAction
  }

  /** The effect of one direction: the new state, whether the photo flag is
      raised, whether the captured bitmaps are cleared. */
  datatype Step = Step(next: Sequencer, capture: bool, clear: bool)

  function Transition(s: Sequencer, direction: FaceDirection): (r: Step)
    requires IndexInRange(s.indexAction)
    ensures IndexInRange(r.next.indexAction)
    ensures Inv(s) ==> Inv(r.next)
    ensures s.page != Camera ==> r == Step(s, false, false)
    ensures r.clear <==> s.page == Camera && direction == OutsideOfCircle
    ensures r.capture <==>
      s.page == Camera && s.indexAction != Completed &&
      direction == FaceActionList[s.indexAction].name &&
      s.countDirection >= FaceActionList[s.indexAction].count
    ensures Progress(r.next) == if r.clear then 0 else if r.capture then Progress(s) + 1 else Progress(s)
  {
    if s.page != Camera then Step(s, false, false)
    else if direction == OutsideOfCircle then Step(Sequencer(s.page, 0, 0), false, true)
    else if s.indexAction != Completed then
      var currentAction := FaceActionList[s.indexAction];
      if currentAction.name == direction then
        if s.countDirection >= currentAction.count then
          if s.indexAction < |FaceActionList| - 1 then
            Step(Sequencer(s.page, s.indexAction + 1, 0), true, false)
          else
            Step(Sequencer(s.page, Completed, 0), true, false)
        else
          Step(Sequencer(s.page, s.indexAction, s.countDirection + 1), false, false)
      else
        Step(Sequencer(s.page, s.indexAction, 0), false, false)
    else
      Step(Sequencer(Preview, s.indexAction, s.countDirection), false, false)
  }

  /** Leaving the circle restarts the script, even at the sentinel. */
  lemma OutsideRestarts(s: Sequencer)
    requires IndexInRange(s.indexAction) && s.page == Camera
    ensures Transition(s, OutsideOfCircle) == Step(Initial, false, true)
  {
  }

  /** The current action's direction, below its count, grows the streak by one
      and keeps the action. */
  lemma MatchGrowsStreak(s: Sequencer)
    requires Inv(s) && s.page == Camera && s.indexAction != Completed
    requires s.countDirection < FaceActionList[s.indexAction].count
    ensures var r := Transition(s, FaceActionList[s.indexAction].name);
      r.next == Sequencer(Camera, s.indexAction, s.countDirection + 1) && !r.capture && !r.clear
  {
  }

  /** Any other in-circle direction loses the streak but keeps the action. */
  lemma MismatchResetsStreak(s: Sequencer, direction: FaceDirection)
    requires Inv(s) && s.page == Camera && s.indexAction != Completed
    requires direction != OutsideOfCircle && direction != FaceActionList[s.indexAction].name
    ensures Transition(s, direction) == Step(Sequencer(Camera, s.indexAction, 0), false, false)
  {
  }

  /** A completed streak takes the photo and moves to the next action, or to
      the sentinel after the last one. */
  lemma CompletedStreakAdvances(s: Sequencer)
    requires Inv(s) && s.page == Camera && s.indexAction != Completed
    requires s.countDirection >= FaceActionList[s.indexAction].count
    ensures var r := Transition(s, FaceActionList[s.indexAction].name);
      r.capture && !r.clear &&
      r.next == Sequencer(Camera, if s.indexAction == |FaceActionList| - 1 then Completed else s.indexAction + 1, 0)
  {
  }

  /** After the last action, any in-circle direction moves to the preview. */
  lemma FinishedMovesToPreview(s: Sequencer, direction: FaceDirection)
    requires s.page == Camera && s.indexAction == Completed && direction != OutsideOfCircle
    ensures Transition(s, direction) == Step(Sequencer(Preview, Completed, s.countDirection), false, false)
  {
  }

  /** The outcome of a sequence of frame directions: the final state and the
      actions whose photos are held (the index of each, in capture order). */
  datatype Trace = Trace(last: Sequencer, captures: seq<int>)

  function Run(s: Sequencer, directions: seq<FaceDirection>): (t: Trace)
    requires IndexInRange(s.indexAction)
    ensures IndexInRange(t.last.indexAction)
    ensures Inv(s) ==> Inv(t.last)
    decreases |directions|
  {
    if directions == [] then Trace(s, [])
    else
      var before := Run(s, directions[..|directions| - 1]);
      var step := Transition(before.last, directions[|directions| - 1]);
      Trace(step.next,
        if step.clear then []
        else if step.capture then before.captures + [before.last.indexAction]
        else before.captures)
  }

  /** The photos held are exactly one per completed action, in script order:
      nothing is skipped or repeated, and reaching the sentinel means every
      action of the list was captured once. */
  lemma {:induction false} CapturesFollowScript(directions: seq<FaceDirection>)
    ensures var t := Run(Initial, directions);
      t.captures == seq(Progress(t.last), i => i)
  {
    if directions != [] {
      var prefix := directions[..|directions| - 1];
      CapturesFollowScript(prefix);
    }
  }

  /** The whole script needs one capture per action. */
  lemma FinishingTakesEveryAction(directions: seq<FaceDirection>)
    requires Run(Initial, directions).last.indexAction == Completed
    ensures Run(Initial, directions).captures == [0, 1, 2, 3, 4]
  {
    CapturesFollowScript(directions);
  }

  /** The streak counts consecutive frames: a streak of `c` means the last `c`
      directions all equal the current action's direction. */
  lemma {:induction false} StreakIsSuffix(s: Sequencer, directions: seq<FaceDirection>)
    requires Inv(s) && s.countDirection == 0
    ensures var last := Run(s, directions).last;
      last.indexAction != Completed ==>
        last.countDirection <= |directions| &&
        forall k :: |directions| - last.countDirection <= k < |directions| ==>
          directions[k] == FaceActionList[last.indexAction].name
  {
    if directions != [] {
      var prefix := directions[..|directions| - 1];
      StreakIsSuffix(s, prefix);
      var before := Run(s, prefix).last;
      var d := directions[|directions| - 1];
      var last := Run(s, directions).last;
      if last.indexAction != Completed && last.countDirection > 0 {
        assert before.page == Camera && before.indexAction == last.indexAction;
        assert d == FaceActionList[last.indexAction].name;
        assert last.countDirection == before.countDirection + 1;
        forall k | |directions| - last.countDirection <= k < |directions|
          ensures directions[k] == FaceActionList[last.indexAction].name
        {
          if k < |directions| - 1 {
            assert directions[k] == prefix[k];
          }
        }
      }
    }
  }

  /** A photo is taken only after more than `count` consecutive frames facing
      the current action's direction. */
  lemma CaptureNeedsStreak(s: Sequencer, directions: seq<FaceDirection>, direction: FaceDirection)
    requires Inv(s) && s.countDirection == 0
    requires Transition(Run(s, directions).last, direction).capture
    ensures var i := Run(s, directions).last.indexAction;
      var streak := directions + [direction];
      |streak| >= FaceActionList[i].count + 1 &&
      forall k :: |streak| - (FaceActionList[i].count + 1) <= k < |streak| ==> streak[k] == FaceActionList[i].name
  {
    StreakIsSuffix(s, directions);
    var streak := directions + [direction];
    var last := Run(s, directions).last;
    forall k | |streak| - (FaceActionList[last.indexAction].count + 1) <= k < |streak|
      ensures streak[k] == FaceActionList[last.indexAction].name
    {
      if k < |directions| {
        assert streak[k] == directions[k];
      }
    }
  }

  /** The add-face page: its state fields, the photos captured so far, and the
      `takePhoto` flag. A captured bitmap is represented by the crop rectangle
      it was cut with. */
  class AddFacePageSession {
    var addFaceState: AddFaceState
    var indexAction: int
    var countDirection: int
    var capturedBitmaps: seq<CropRect>
    var takePhoto: bool

    function State(): Sequencer
      reads this
    {
      Sequencer(addFaceState, indexAction, countDirection)
    }

    /** The sequencing invariant, and one photo (taken or pending) per
        completed action. */
    ghost predicate Valid()
      reads this
    {
      Inv(State()) &&
      |capturedBitmaps| + (if takePhoto then 1 else 0) == Progress(State())
    }

    constructor ()
      ensures Valid() && State() == Initial && capturedBitmaps == [] && !takePhoto
    {
      addFaceState := Camera;
      indexAction := 0;
      countDirection := 0;
      capturedBitmaps := [];
      takePhoto := false;
    }

    /** `onHandleFaceDirection`; the photo request is modelled as raising the
        flag at once. */
    method OnHandleFaceDirection(direction: FaceDirection)
      requires Valid() && !takePhoto
      modifies this
      ensures Valid()
      ensures var step := Transition(old(State()), direction);
        State() == step.next && takePhoto == step.capture &&
        capturedBitmaps == if step.clear then [] else old(capturedBitmaps)
    {
      if addFaceState == Camera {
        if direction == OutsideOfCircle {
          indexAction := 0;
          countDirection := 0;
          capturedBitmaps := [];
        } else {
          if indexAction != Completed {
            var currentAction := FaceActionList[indexAction];
            if currentAction.name == direction {
              if countDirection >= currentAction.count {
                if indexAction < |FaceActionList| - 1 {
                  takePhoto := true;
                  indexAction := indexAction + 1;
                  countDirection := 0;
                } else {
                  takePhoto := true;
                  indexAction := Completed;
                  countDirection := 0;
                }
              } else {
                countDirection := countDirection + 1;
              }
            } else {
              countDirection := 0;
            }
          } else {
            addFaceState := Preview;
          }
        }
      }
    }

    /** One camera frame: classify the detections, hand the direction to the
        sequencer, and if a photo was requested, crop the face out of the
        frame and keep it (`onTakePhoto`). */
    method ProcessFrame(detections: seq<Detection>, cameraSize: Size, imageSize: Size,
                        bitmapWidth: int, bitmapHeight: int)
      requires Valid() && !takePhoto
      requires imageSize.width > 0.0 && imageSize.height > 0.0
      modifies this
      ensures Valid() && !takePhoto
      ensures match DetectedDirection(detections, cameraSize, imageSize)
        case None => State() == old(State()) && capturedBitmaps == old(capturedBitmaps)
        case Some(direction) =>
          var step := Transition(old(State()), direction);
          State() == step.next &&
          capturedBitmaps ==
            if step.clear then []
            else if step.capture then old(capturedBitmaps) + [GetCroppedFaceImage(detections, bitmapWidth, bitmapHeight).value]
            else old(capturedBitmaps)
    {
      var action := CheckDetections(detections, cameraSize, imageSize);
      if action.Some? {
        OnHandleFaceDirection(action.value);
      }
      if takePhoto {
        var bitmapForEmbedding := GetCroppedFaceImage(detections, bitmapWidth, bitmapHeight);
        if bitmapForEmbedding.Some? {
          capturedBitmaps := capturedBitmaps + [bitmapForEmbedding.value];
          takePhoto := false;
        }
      }
    }

    /** `onBack` from the preview: back to the camera at the start of the
        script with nothing captured. */
    method OnBack()
      modifies this
      ensures State() == Initial && capturedBitmaps == [] && takePhoto == old(takePhoto)
      ensures !takePhoto ==> Valid()
    {
      addFaceState := Camera;
      capturedBitmaps := [];
      countDirection := 0;
      indexAction := 0;
    }
  }
}
