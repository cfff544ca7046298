/**
 * Picking a wallpaper that has not been shown yet, and picking the rendition
 * of a wallpaper that fits the screen.
 *
 * `java.util.Random` is replaced by a sequence of draws: draw `d` picks the
 * item at `d % |list|`, which covers exactly the range `nextInt(|list|)` can
 * return. Running out of draws means the selection loop has not exited yet.
 */
module Selection {
  import opened Wrappers
  import opened Records

  /** What the selection loop has done once the draws are used up. */
  datatype Draw =
    | Picked(wallpaper: Wallpaper)  // the loop exited with this item
    | Drawing                       // the loop is still running
    | EmptyList                     // `nextInt(0)` threw before anything changed

  /**
   * One pass of the selection loop body for the item at `index`: the new
   * shown set, and whether the loop exits with that item.
   */
  function SelectStep(shown: set<Int32>, list: seq<Wallpaper>, currentId: int, index: nat): (r: (set<Int32>, bool))
    requires index < |list|
    // an id already shown changes nothing
    ensures list[index].ilId in shown ==> r == (shown, false)
    // an item without renditions is marked shown and never picked
    ensures list[index].ilId !in shown && |list[index].detail| == 0 ==> r == (shown + {list[index].ilId}, false)
    // the loop exits exactly on an unshown item with renditions that is not the current artwork
    ensures r.1 <==> list[index].ilId !in shown && |list[index].detail| > 0 && list[index].ilId != currentId
    ensures r.1 ==> list[index].ilId in r.0 && |r.0| <= |list|
    // the current artwork (with renditions) is never added
    ensures list[index].ilId == currentId && |list[index].detail| > 0 ==> r.0 <= shown
    // only the drawn id is ever added
    ensures r.0 <= shown + {list[index].ilId}
    // ids are dropped only by the reset, which needs a full set and an unshown item with renditions
    ensures !(shown <= r.0) ==>
      |shown| >= |list| && list[index].ilId !in shown && |list[index].detail| > 0 && r.0 <= {list[index].ilId}
    // an unshown item with renditions drawn while the set is full resets it, picked or not
    ensures list[index].ilId !in shown && |list[index].detail| > 0 && |shown| >= |list| ==> r.0 <= {list[index].ilId}
    // once every listed id is shown, nothing changes
    ensures ListIds(list) <= shown ==> r == (shown, false)
  {
    var w := list[index];
    if w.ilId in shown then (shown, false)
    else if |w.detail| == 0 then (shown + {w.ilId}, false)
    else
      var kept := if |shown| >= |list| then {} else shown;
      if currentId != w.ilId then (kept + {w.ilId}, true) else (kept, false)
  }

  /** The selection loop run on `draws`: the shown set it leaves and what it did. */
  function SelectRun(shown: set<Int32>, list: seq<Wallpaper>, currentId: int, draws: seq<nat>): (r: (set<Int32>, Draw))
    ensures |list| == 0 ==> r == (shown, EmptyList)
    ensures r.1.Picked? ==>
      r.1.wallpaper in list && |r.1.wallpaper.detail| > 0 && r.1.wallpaper.ilId != currentId
      && r.1.wallpaper.ilId in r.0 && |r.0| <= |list|
    ensures |draws| == 0 && |list| > 0 ==> r == (shown, Drawing)
    decreases |draws|
  {
    if |list| == 0 then (shown, EmptyList)
    else if |draws| == 0 then (shown, Drawing)
    else
      var index := draws[0] % |list|;
      var (next, exits) := SelectStep(shown, list, currentId, index);
      if exits then (next, Picked(list[index]))
      else SelectRun(next, list, currentId, draws[1..])
  }

  /**
   * Once every listed id is in the shown set, no sequence of draws makes the
   * loop exit or changes the set: the loop runs forever.
   */
  lemma {:induction false} ExhaustedNeverExits(shown: set<Int32>, list: seq<Wallpaper>, currentId: int, draws: seq<nat>)
    requires |list| > 0 && ListIds(list) <= shown
    ensures SelectRun(shown, list, currentId, draws) == (shown, Drawing)
    decreases |draws|
  {
    if |draws| > 0 {
      ExhaustedNeverExits(shown, list, currentId, draws[1..]);
    }
  }

  /** Drawing an unshown item with renditions that is not the current artwork ends the loop with it. */
  lemma EligibleDrawExits(shown: set<Int32>, list: seq<Wallpaper>, currentId: int, draws: seq<nat>)
    requires |draws| > 0 && |list| > 0
    requires list[draws[0] % |list|].ilId !in shown
    requires |list[draws[0] % |list|].detail| > 0
    requires list[draws[0] % |list|].ilId != currentId
    ensures SelectRun(shown, list, currentId, draws).1 == Picked(list[draws[0] % |list|])
  {
  }

  /** Picks can fill the shown set up to the list size: the reset comes before the add, not after. */
  lemma PickCanFillShownSet()
    ensures var a := Wallpaper(1, "", "", "", 0, [Resolution("", "a_m.jpg", 0, 0, "")]);
            var b := Wallpaper(2, "", "", "", 0, [Resolution("", "b_m.jpg", 0, 0, "")]);
            SelectRun({1}, [a, b], 0, [1]) == ({1, 2}, Picked(b))
  {
    var a := Wallpaper(1, "", "", "", 0, [Resolution("", "a_m.jpg", 0, 0, "")]);
    var b := Wallpaper(2, "", "", "", 0, [Resolution("", "b_m.jpg", 0, 0, "")]);
    var shown: set<Int32> := {1};
    assert |shown| == 1 && 2 !in shown;
    assert [a, b][1] == b;
    assert shown + {2} == {1, 2};
    assert SelectStep(shown, [a, b], 0, 1) == ({1, 2}, true);
  }

  /**
   * A reset in a step that rejects the current artwork lets the loop pick an
   * item that was already shown when the loop started.
   */
  lemma ResetCanRepickShownItem()
    ensures var c := Wallpaper(2, "", "", "", 0, [Resolution("", "c_m.jpg", 0, 0, "")]);
            var a := Wallpaper(1, "", "", "", 0, [Resolution("", "a_m.jpg", 0, 0, "")]);
            SelectRun({1, 5}, [c, a], 2, [0, 1]) == ({1}, Picked(a))
  {
  }

  // ----- choosing a rendition -----

  /** An empty rendition list ends in `IndexOutOfBoundsException` on `get(size - 1)`. */
  datatype ResolutionError = IndexOutOfBounds

  /** The index of the first rendition from `from` on whose height reaches `minimumHeight`, or `|detail|`. */
  function FirstTallEnough(detail: seq<Resolution>, minimumHeight: int, from: nat): (k: nat)
    requires from <= |detail|
    ensures from <= k <= |detail|
    ensures k < |detail| ==> detail[k].height >= minimumHeight
    ensures forall j :: from <= j < k ==> detail[j].height < minimumHeight
    decreases |detail| - from
  {
    if from == |detail| || detail[from].height >= minimumHeight then from
    else FirstTallEnough(detail, minimumHeight, from + 1)
  }

  /**
   * The rendition shown on a screen of height `minimumHeight`: the first one
   * at least that tall, otherwise the last one. No sorting is done.
   */
  function SelectResolution(detail: seq<Resolution>, minimumHeight: int): (r: Result<Resolution, ResolutionError>)
    ensures |detail| == 0 <==> r == Failure(IndexOutOfBounds)
    ensures r.Success? && r.value.height >= minimumHeight ==>
      exists k :: 0 <= k < |detail| && detail[k] == r.value && forall j :: 0 <= j < k ==> detail[j].height < minimumHeight
    ensures r.Success? && r.value.height < minimumHeight ==>
      r.value == detail[|detail| - 1] && forall j :: 0 <= j < |detail| ==> detail[j].height < minimumHeight
    ensures (exists j :: 0 <= j < |detail| && detail[j].height >= minimumHeight) ==> r.Success? && r.value.height >= minimumHeight
  {
    var k := FirstTallEnough(detail, minimumHeight, 0);
    if k < |detail| then Success(detail[k])
    else if |detail| == 0 then Failure(IndexOutOfBounds)
    else Success(detail[|detail| - 1])
  }

  /** Heights 480, 720, 1080: a 700 pixel screen gets the 720 rendition, a 2000 pixel screen the last one. */
  lemma ResolutionExamples()
    ensures var small := Resolution("s", "s_m.jpg", 854, 480, "t");
            var medium := Resolution("m", "m_m.jpg", 1280, 720, "t");
            var large := Resolution("l", "l_m.jpg", 1920, 1080, "t");
            SelectResolution([small, medium, large], 700) == Success(medium)
            && SelectResolution([small, medium, large], 2000) == Success(large)
  {
  }
}
