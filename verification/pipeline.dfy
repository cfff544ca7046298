/**
 * One update cycle of the wallpaper source (`onTryUpdate`) and the first
 * update after the source is enabled (`onUpdate` with the initial reason).
 *
 * The host (current artwork token, screen height, clock, date formatting)
 * comes in as `Host`; the two remote calls come in as scripted replies; the
 * random draws as a sequence. A cycle ends in one `Action`.
 */
module Pipeline {
  import opened Wrappers
  import opened Records
  import opened Decimal
  import opened Selection
  import opened Remote
  import opened Tracker

  /** Three hours between regular updates. */
  const UpdateIntervalMillis: int := 3 * 60 * 60 * 1000
  /** Fifteen minutes from the bundled picture to the first real update. */
  const InitialDelayMillis: int := 15 * 60 * 1000
  /** The token, title, byline and page of the bundled picture. */
  const InitialToken: string := "66138"
  const InitialTitle: string := "22&33"
  const InitialByline: string := "Bilibili壁纸娘\n动漫"
  /** The detail page of a wallpaper is this prefix followed by its id. */
  const DetailPagePrefix: string := "http://h.bilibili.com/wallpaper?action=detail&il_id="
  const InitialPage: string := DetailPagePrefix + InitialToken

  /** Unchecked exceptions that escape a cycle. */
  datatype Fault =
    | BadToken      // the current artwork's token is not a number
    | NoCandidates  // `nextInt(0)`: nothing left after the placeholder
    | NoRendition   // the detail reply has no renditions

  datatype Action =
    | Retry                                      // `RetryException`
    | Fail(fault: Fault)                         // an unchecked exception
    | ScheduleOnly(at: int)                      // nothing published, next update at `at`
    | PublishAndSchedule(artwork: Artwork, at: int)
    | StillDrawing                               // the selection loop had not exited when the draws ran out

  /** What the host supplies to a cycle. */
  datatype Host = Host(
    currentToken: Option<string>,  // token of the current artwork, if there is one
    minimumHeight: int,            // the desired minimum wallpaper height
    now: int,                      // the clock, in milliseconds
    formatDate: int -> string)     // `yyyy-MM-dd` formatting of a time in milliseconds

  /** The scripted replies of the list call and of the detail call. */
  datatype Replies = Replies(
    list: seq<Reply<seq<Wallpaper>>>,
    detail: seq<Reply<seq<Wallpaper>>>)

  predicate Scripted(replies: Replies)
  {
    |replies.list| >= MaxAttempts && |replies.detail| >= MaxAttempts
  }

  /** The id of the current artwork, 0 when there is none, `None` when its token is not a number. */
  function CurrentId(token: Option<string>): (r: Option<int>)
    ensures token.None? ==> r == Some(0)
  {
    match token
    case None => Some(0)
    case Some(t) =>
      match ParseInt(t)
      case None => None
      case Some(v) => Some(v)
  }

  // ----- the image URL -----

  predicate MediumAt(url: string, i: int)
  {
    0 <= i && i + 3 <= |url| && url[i..i + 3] == "_m."
  }

  /** `k` is where the first `_m.` of `url` starts. */
  predicate FirstMediumAt(url: string, k: int)
  {
    MediumAt(url, k) && forall j :: 0 <= j < k ==> !MediumAt(url, j)
  }

  function FirstMedium(url: string, from: nat): (k: nat)
    requires from <= |url|
    ensures from <= k <= |url|
    ensures k < |url| ==> MediumAt(url, k)
    ensures forall j :: from <= j < k ==> !MediumAt(url, j)
    decreases |url| - from
  {
    if from == |url| || MediumAt(url, from) then from
    else FirstMedium(url, from + 1)
  }

  /** `replaceFirst("_m\\.", "_l\\.")`: the large image in place of the medium one. */
  function LargeImageUrl(url: string): (r: string)
    ensures |r| == |url|
    ensures (forall i :: 0 <= i < |url| ==> !MediumAt(url, i)) ==> r == url
    ensures forall k :: FirstMediumAt(url, k) ==> r == url[..k] + "_l." + url[k + 3..]
  {
    var k := FirstMedium(url, 0);
    if k < |url| then url[..k] + "_l." + url[k + 3..] else url
  }

  lemma FirstOccurrenceReplaced()
    ensures LargeImageUrl("foo_m.jpg") == "foo_l.jpg"
  {
    var head, tail := "foo", "jpg";
    var url := head + "_m." + tail;
    assert url == "foo_m.jpg";
    assert MediumAt(url, 3) by {
      assert url[3..6] == "_m.";
    }
    forall j | 0 <= j < 3
      ensures !MediumAt(url, j)
    {
      assert url[j..j + 3][0] == url[j] != '_';
    }
    assert FirstMediumAt(url, 3);
    assert url[..3] == head && url[6..] == tail;
    assert head + "_l." + tail == "foo_l.jpg";
  }

  lemma OnlyFirstOccurrenceReplaced()
    ensures LargeImageUrl("a_m.b_m.jpg") == "a_l.b_m.jpg"
  {
    var head, tail := "a", "b_m.jpg";
    var url := head + "_m." + tail;
    assert url == "a_m.b_m.jpg";
    assert MediumAt(url, 1) by {
      assert url[1..4] == "_m.";
    }
    assert !MediumAt(url, 0) by {
      assert url[0..3][0] == url[0] != '_';
    }
    assert FirstMediumAt(url, 1);
    assert url[..1] == head && url[4..] == tail;
    assert head + "_l." + tail == "a_l.b_m.jpg";
  }

  // ----- the artwork -----

  /** Author, posting date and category, as shown under the title: `author, date` on one line, the category on the next. */
  function Byline(wallpaper: Wallpaper, formatDate: int -> string): (r: string)
    ensures |r| == |wallpaper.authorName| + 2 + |formatDate(wallpaper.postTime * 1000)| + 1 + |wallpaper.kind|
    ensures r[..|wallpaper.authorName| + 2] == wallpaper.authorName + ", "
    // the posting time is in seconds; the formatter takes milliseconds
    ensures r[|wallpaper.authorName| + 2..|r| - |wallpaper.kind| - 1] == formatDate(wallpaper.postTime * 1000)
    ensures r[|r| - |wallpaper.kind| - 1..] == "\n" + wallpaper.kind
  {
    var name, date, kind := wallpaper.authorName, formatDate(wallpaper.postTime * 1000), wallpaper.kind;
    var line := name + ", " + date + "\n" + kind;
    assert line == (name + ", ") + date + ("\n" + kind);
    line
  }

  /**
   * The artwork for the picked list item and the chosen rendition of its
   * details. Its token is the item's id in decimal, which the next cycle
   * reads back as the current id.
   */
  function ArtworkFor(picked: Wallpaper, pic: Resolution, formatDate: int -> string): (a: Artwork)
    ensures CurrentId(Some(a.token)) == Some(picked.ilId as int)
    ensures a.imageUri == LargeImageUrl(pic.ilFile) && a.title == pic.title
    ensures a.byline == Byline(picked, formatDate) && a.viewUri == picked.authorUrl
  {
    ParseToDecimal(picked.ilId);
    Artwork(LargeImageUrl(pic.ilFile), pic.title, ToDecimal(picked.ilId), Byline(picked, formatDate), picked.authorUrl)
  }

  /** The bundled picture's token is the number 66138. */
  lemma InitialTokenParses()
    ensures ParseInt(InitialToken) == Some(66138)
  {
    var t := InitialToken;
    assert AllDigits(t);
    assert t[..4] == "6613" && "6613"[..3] == "661" && "661"[..2] == "66" && "66"[..1] == "6" && "6"[..0] == "";
    assert DigitsValue("6") == 6;
    assert DigitsValue("66") == 66;
    assert DigitsValue("661") == 661;
    assert DigitsValue("6613") == 6613;
    assert DigitsValue(t) == 66138;
  }

  /**
   * The bundled picture, published from the cached file: its token reads
   * back as id 66138, and its page is that id's detail page.
   */
  function InitialArtwork(fileUri: string): (a: Artwork)
    ensures a.imageUri == fileUri
    ensures CurrentId(Some(a.token)) == Some(66138)
    ensures a.viewUri == DetailPagePrefix + a.token
  {
    InitialTokenParses();
    Artwork(fileUri, InitialTitle, InitialToken, InitialByline, InitialPage)
  }

  // ----- one cycle -----

  /** The action of one cycle and the shown set it leaves. */
  function Cycle(shown: set<Int32>, replies: Replies, draws: seq<nat>, host: Host): (r: (Action, set<Int32>))
    requires Scripted(replies)
    ensures Retried(replies.list).0.None? ==> r == (Retry, shown)
    ensures Retried(replies.list).0 == Some([]) ==> r == (ScheduleOnly(host.now + UpdateIntervalMillis), shown)
    // a list holding only the placeholder reaches the selection empty
    ensures Retried(replies.list).0.Some? && |Retried(replies.list).0.value| == 1 ==> r.0.Fail? && r.1 == shown
    ensures r.0.ScheduleOnly? || r.0.PublishAndSchedule? ==> r.0.at == host.now + UpdateIntervalMillis
    ensures r.0.PublishAndSchedule? ==> |r.1| <= |Retried(replies.list).0.value| - 1
    ensures Retried(replies.list).0.Some? && |Retried(replies.list).0.value| > 0 && CurrentId(host.currentToken).None? ==>
      r == (Fail(BadToken), shown)
    // past the placeholder and the token, the cycle leaves the set the selection left
    ensures Retried(replies.list).0.Some? && |Retried(replies.list).0.value| > 0 && CurrentId(host.currentToken).Some? ==>
      var run := SelectRun(shown, Retried(replies.list).0.value[1..], CurrentId(host.currentToken).value, draws);
      && (run.1.EmptyList? ==> r == (Fail(NoCandidates), run.0))
      && (run.1.Drawing? ==> r == (StillDrawing, run.0))
      // no detail found for the picked item: retry, the item stays marked shown
      && (run.1.Picked? && Detail(replies.detail, run.1.wallpaper.ilId).None? ==> r == (Retry, run.0))
      // a detail without renditions: an exception, the item stays marked shown
      && (run.1.Picked? && Detail(replies.detail, run.1.wallpaper.ilId).Some? &&
          |Detail(replies.detail, run.1.wallpaper.ilId).value.detail| == 0 ==>
            r == (Fail(NoRendition), run.0))
      // a detail with renditions: the artwork of the chosen rendition is published, next update in 3 h
      && (run.1.Picked? && Detail(replies.detail, run.1.wallpaper.ilId).Some? &&
          |Detail(replies.detail, run.1.wallpaper.ilId).value.detail| > 0 ==>
            var selected := Detail(replies.detail, run.1.wallpaper.ilId).value;
            SelectResolution(selected.detail, host.minimumHeight).Success? &&
            r == (PublishAndSchedule(ArtworkFor(run.1.wallpaper, SelectResolution(selected.detail, host.minimumHeight).value, host.formatDate),
                                     host.now + UpdateIntervalMillis), run.0))
  {
    match Retried(replies.list).0
    case None => (Retry, shown)
    case Some(all) =>
      if |all| == 0 then (ScheduleOnly(host.now + UpdateIntervalMillis), shown)
      else
        var candidates := all[1..];  // the first item is a banner placeholder
        match CurrentId(host.currentToken)
        case None => (Fail(BadToken), shown)
        case Some(currentId) =>
          var (next, drawn) := SelectRun(shown, candidates, currentId, draws);
          match drawn
          case EmptyList => (Fail(NoCandidates), next)
          case Drawing => (StillDrawing, next)
          case Picked(wallpaper) =>
            match Detail(replies.detail, wallpaper.ilId)
            case None => (Retry, next)
            case Some(selected) =>
              match SelectResolution(selected.detail, host.minimumHeight)
              case Failure(_) => (Fail(NoRendition), next)
              case Success(pic) =>
                (PublishAndSchedule(ArtworkFor(wallpaper, pic, host.formatDate), host.now + UpdateIntervalMillis), next)
  }

  /**
   * A published artwork comes from a list item that was picked (unshown, with
   * renditions, not the current artwork): its token and byline are that
   * item's, and its image and title are those of the chosen rendition of the
   * matching detail item.
   */
  lemma PublishedArtwork(shown: set<Int32>, replies: Replies, draws: seq<nat>, host: Host)
    requires Scripted(replies)
    ensures Cycle(shown, replies, draws, host).0.PublishAndSchedule? ==>
      && Retried(replies.list).0.Some? && |Retried(replies.list).0.value| > 1
      && CurrentId(host.currentToken).Some?
      && var candidates := Retried(replies.list).0.value[1..];
         var r := SelectRun(shown, candidates, CurrentId(host.currentToken).value, draws);
         var artwork := Cycle(shown, replies, draws, host).0.artwork;
         && r.1.Picked?
         && r.1.wallpaper in candidates
         && r.1.wallpaper.ilId as int != CurrentId(host.currentToken).value
         && r.1.wallpaper.ilId in Cycle(shown, replies, draws, host).1
         && artwork.token == ToDecimal(r.1.wallpaper.ilId)
         && artwork.byline == Byline(r.1.wallpaper, host.formatDate)
         && artwork.viewUri == r.1.wallpaper.authorUrl
         && Detail(replies.detail, r.1.wallpaper.ilId).Some?
         && var selected := Detail(replies.detail, r.1.wallpaper.ilId).value;
            && selected.ilId == r.1.wallpaper.ilId
            && SelectResolution(selected.detail, host.minimumHeight).Success?
            && var pic := SelectResolution(selected.detail, host.minimumHeight).value;
               && pic in selected.detail
               && artwork.imageUri == LargeImageUrl(pic.ilFile)
               && artwork.title == pic.title
  {
  }

  /** `onTryUpdate`. */
  method OnTryUpdate(shownIds: ShownIds, replies: Replies, draws: seq<nat>, host: Host) returns (action: Action)
    requires Scripted(replies)
    modifies shownIds
    ensures (action, shownIds.ids) == Cycle(old(shownIds.ids), replies, draws, host)
  {
    var wallpapers, _ := Fetch(replies.list);
    if wallpapers.None? {
      return Retry;
    }
    var list := wallpapers.value;
    if |list| == 0 {
      return ScheduleOnly(host.now + UpdateIntervalMillis);
    }
    list := list[1..];  // the first item is a banner placeholder
    var currentId := CurrentId(host.currentToken);
    if currentId.None? {
      return Fail(BadToken);
    }
    var drawn := shownIds.SelectWallpaper(list, currentId.value, draws);
    if drawn.EmptyList? {
      return Fail(NoCandidates);
    } else if drawn.Drawing? {
      return StillDrawing;
    }
    var wallpaper := drawn.wallpaper;
    var selected := GetDetail(replies.detail, wallpaper.ilId);
    if selected.None? {
      return Retry;
    }
    var pic := SelectResolution(selected.value.detail, host.minimumHeight);
    if pic.Failure? {
      return Fail(NoRendition);
    }
    action := PublishAndSchedule(ArtworkFor(wallpaper, pic.value, host.formatDate), host.now + UpdateIntervalMillis);
  }

  datatype UpdateReason = Initial | UserNext | Scheduled | OtherReason

  /**
   * `onUpdate`: on the initial update with the bundled picture cached
   * (`cachedFile` is its URI), publish it and come back in fifteen minutes;
   * otherwise run a regular cycle.
   */
  method OnUpdate(shownIds: ShownIds, reason: UpdateReason, cachedFile: Option<string>,
                  replies: Replies, draws: seq<nat>, host: Host) returns (action: Action)
    requires Scripted(replies)
    modifies shownIds
    ensures reason == Initial && cachedFile.Some? ==>
      action == PublishAndSchedule(InitialArtwork(cachedFile.value), host.now + InitialDelayMillis)
      && shownIds.ids == old(shownIds.ids)
    ensures !(reason == Initial && cachedFile.Some?) ==>
      (action, shownIds.ids) == Cycle(old(shownIds.ids), replies, draws, host)
  {
    if reason == Initial && cachedFile.Some? {
      return PublishAndSchedule(InitialArtwork(cachedFile.value), host.now + InitialDelayMillis);
    }
    action := OnTryUpdate(shownIds, replies, draws, host);
  }

  // ----- scenarios -----

  /** The list call failing in transport three times: retry later, nothing shown changes. */
  lemma ListTransportFailsThrice(shown: set<Int32>, detail: seq<Reply<seq<Wallpaper>>>, draws: seq<nat>, host: Host)
    requires |detail| >= MaxAttempts
    ensures Cycle(shown, Replies([Transport, Transport, Transport], detail), draws, host) == (Retry, shown)
  {
    ThreeTransportFailures<seq<Wallpaper>>([Transport, Transport, Transport]);
  }

  /** Only the placeholder comes back: the selection is asked to draw from nothing. */
  lemma PlaceholderOnly(shown: set<Int32>, placeholder: Wallpaper, detail: seq<Reply<seq<Wallpaper>>>, draws: seq<nat>, host: Host)
    requires |detail| >= MaxAttempts && host.currentToken.None?
    ensures Cycle(shown, Replies([Returned(Some([placeholder])), Transport, Transport], detail), draws, host)
            == (Fail(NoCandidates), shown)
  {
  }

  /**
   * Placeholder, an item without renditions (id 1), and an item with one (id 2):
   * drawing both, the first is marked shown and the second is published.
   */
  lemma SkipsItemWithoutRenditions(placeholder: Wallpaper, pic: Resolution, host: Host)
    requires host.currentToken.None?
    ensures var a := Wallpaper(1, "a", "http://a", "t", 0, []);
            var b := Wallpaper(2, "b", "http://b", "t", 0, [pic]);
            var replies := Replies([Returned(Some([placeholder, a, b])), Transport, Transport],
                                   [Returned(Some([b])), Transport, Transport]);
            var r := Cycle({}, replies, [0, 1], host);
            && r.1 == {1, 2}
            && r.0.PublishAndSchedule?
            && r.0.artwork.token == "2"
            && r.0.artwork.title == pic.title
  {
    var a := Wallpaper(1, "a", "http://a", "t", 0, []);
    var b := Wallpaper(2, "b", "http://b", "t", 0, [pic]);
    assert [placeholder, a, b][1..] == [a, b];
    var none: set<Int32> := {};
    assert [a, b][0] == a && [a, b][1] == b;
    assert none + {1} == {1};
    assert SelectStep(none, [a, b], 0, 0) == ({1}, false);
    var one: set<Int32> := {1};
    assert |one| == 1 && 2 !in one;
    assert one + {2} == {1, 2};
    assert SelectStep(one, [a, b], 0, 1) == ({1, 2}, true);
    assert SelectRun(none, [a, b], 0, [0, 1]) == ({1, 2}, Picked(b)) by {
      assert [0, 1][1..] == [1];
    }
    assert Lookup([b], 2) == Some(b);
    assert ToDecimal(2) == "2";
  }
}
