# Bilibili wallpaper source: a verified model of its update logic

This project models the update logic of the Muzei art source
`BiliWallpaperSource`. One update cycle works like this:

1. Fetch the wallpaper list, making at most three calls in all.
2. Drop the banner placeholder at the head of the list.
3. Pick a random item that has not been shown yet. Items without renditions are marked shown. When the shown set is full it is reset.
4. Fetch that item's details, retrying the same way, and pick it out of the reply.
5. Choose the first rendition tall enough for the screen.
6. Publish the artwork and schedule the next update three hours later.

The first update after the source is enabled can instead publish a bundled
picture and come back fifteen minutes later. Between runs, the set of shown
ids is kept as text under the key `shown_ids`.

Modules, leaves first:

- `Wrappers`: Option and Result.
- `Records`: the `Wallpaper` and `Resolution` records of the API and the published `Artwork`.
- `Decimal`: `Integer.toString` and `Integer.parseInt` on Java `int`s.
- `ShownIdsFormat`: the stored text of the shown set.
- `Selection`: the selection loop as pure functions, and the choice of rendition.
- `Remote`: the retry loop and the detail lookup.
- `Tracker`: class `ShownIds`. It holds the static shown set and has the methods that change it: load, save and select.
- `Pipeline`: `onTryUpdate` and `onUpdate`, which return an `Action`.

Inputs that are not part of the code:

- Randomness is a sequence of draws. Draw `d` picks the item at `d % |list|`, which is exactly the range `Random.nextInt(|list|)` returns. When the draws run out and the loop has not exited, the result is `Drawing` (`StillDrawing` for a cycle).
- Each remote call is a script of replies, one per attempt: a returned list (possibly null), a `RetrofitError`, or any other exception.
- The host supplies the current artwork's token, the desired minimum height, the clock and the date formatter.
- The cached bundled picture is given as its URI, or as absent when the file does not exist.

Some behaviours of the code are easy to get wrong. Each is stated as a lemma:

- A piece of the stored text with a space before its digits, such as `" 2"` in `"1, 2,"`, is not skipped. It fails to parse (`SpaceIsNotSkipped`).
- After a pick, the shown set can be as large as the list, not strictly smaller. The reset comes before the add (`PickCanFillShownSet`).
- The picked item may have been in the shown set when the loop started. A step that rejects the current artwork can still reset the set (`ResetCanRepickShownItem`).
- Once every listed id is in the shown set, no draw changes anything or exits. The loop then runs forever instead of resetting (`ExhaustedNeverExits`).
- The emptiness test comes before the placeholder is dropped. A list holding only the placeholder therefore reaches `nextInt(0)`, and the cycle fails with an exception rather than scheduling a no-op (`PlaceholderOnly`).

## Model

| member | source | states |
|---|---|---|
| `Decimal.ParseInt` | app/src/main/java/net/yrom/muzei/bili/BiliWallpaperSource.java:297 | `Integer.valueOf` succeeds exactly when the text is an optional `-` or `+` followed by at least one digit and the signed value fits in an `int`; the result is then that signed decimal value |
| `Decimal.ToDecimal` | app/src/main/java/net/yrom/muzei/bili/BiliWallpaperSource.java:307 | `toString` of an id is non-empty and never contains a comma; it is all digits exactly when the id is non-negative |
| `Decimal.ParseToDecimal` | app/src/main/java/net/yrom/muzei/bili/BiliWallpaperSource.java:297-307 | parsing the decimal text of any `int` gives that `int` back |
| `ShownIdsFormat.Least` | app/src/main/java/net/yrom/muzei/bili/BiliWallpaperSource.java:306 | the next id a `TreeSet` yields is in the set and no larger than any other member |
| `ShownIdsFormat.Serialize` | app/src/main/java/net/yrom/muzei/bili/BiliWallpaperSource.java:305-309 | the stored text is empty exactly when the set is empty |
| `ShownIdsFormat.Ascending` | app/src/main/java/net/yrom/muzei/bili/BiliWallpaperSource.java:306 | iterating a `TreeSet` visits each member once, in strictly increasing order, and nothing else |
| `ShownIdsFormat.SerializeFormat` | app/src/main/java/net/yrom/muzei/bili/BiliWallpaperSource.java:305-308 | the stored text, split on commas, is the decimal text of each id in strictly increasing order, then one empty piece: every id is followed by a comma |
| `ShownIdsFormat.SerializeExample` | app/src/main/java/net/yrom/muzei/bili/BiliWallpaperSource.java:305-308 | the set `{2, 1}` is stored as `"1,2,"` |
| `ShownIdsFormat.Split` | app/src/main/java/net/yrom/muzei/bili/BiliWallpaperSource.java:294 | no piece contains a comma, and there is always a piece, empty text included |
| `ShownIdsFormat.JoinSplit` | app/src/main/java/net/yrom/muzei/bili/BiliWallpaperSource.java:294 | splitting loses nothing: joining the pieces with commas gives back the stored text |
| `ShownIdsFormat.ParseTokens` | app/src/main/java/net/yrom/muzei/bili/BiliWallpaperSource.java:295-298 | a failure names a non-empty piece of the input that does not parse |
| `ShownIdsFormat.ParseTokensMeaning` | app/src/main/java/net/yrom/muzei/bili/BiliWallpaperSource.java:294-298 | reading the pieces succeeds exactly when every non-empty piece parses, and then gives the set of ids of the non-empty pieces |
| `ShownIdsFormat.FirstBadToken` | app/src/main/java/net/yrom/muzei/bili/BiliWallpaperSource.java:295-297 | a failure names the first non-empty piece that does not parse: every non-empty piece before it parses |
| `ShownIdsFormat.ParseIds` | app/src/main/java/net/yrom/muzei/bili/BiliWallpaperSource.java:292-299 | a missing stored value reads as the empty set |
| `ShownIdsFormat.ParseSerialize` | app/src/main/java/net/yrom/muzei/bili/BiliWallpaperSource.java:292-309 | reading back the text written at destroy time gives exactly the same set, the empty set included |
| `ShownIdsFormat.SpaceIsNotSkipped` | app/src/main/java/net/yrom/muzei/bili/BiliWallpaperSource.java:296-297 | `"1, 2,"` fails on the piece `" 2"`: only zero-length pieces are skipped |
| `ShownIdsFormat.EmptyPiecesSkipped` | app/src/main/java/net/yrom/muzei/bili/BiliWallpaperSource.java:294-297 | `",,7,"` reads as `{7}`: empty pieces at the ends and between commas are skipped |
| `Selection.SelectStep` | app/src/main/java/net/yrom/muzei/bili/BiliWallpaperSource.java:322-340 | one pass of the loop: a shown id changes nothing; an unshown item without renditions is added and not picked; the loop exits exactly on an unshown item with renditions that is not the current artwork, and the exit leaves its id shown with the set no larger than the list; the current artwork, when it has renditions, is never added; only the drawn id is added; ids are dropped only by a reset, which needs a full set and an unshown item with renditions; such a draw on a full set does reset it, leaving at most the drawn id; with every listed id shown nothing changes |
| `Selection.SelectRun` | app/src/main/java/net/yrom/muzei/bili/BiliWallpaperSource.java:317-343 | an empty list fails before any change; a picked item is in the list, has renditions, is not the current artwork, is shown afterwards, and the set is no larger than the list |
| `Selection.ExhaustedNeverExits` | app/src/main/java/net/yrom/muzei/bili/BiliWallpaperSource.java:321-327 | once every listed id is shown, no sequence of draws exits or changes the set |
| `Selection.EligibleDrawExits` | app/src/main/java/net/yrom/muzei/bili/BiliWallpaperSource.java:325-339 | drawing an unshown item with renditions that is not the current artwork ends the loop with that item |
| `Selection.PickCanFillShownSet` | app/src/main/java/net/yrom/muzei/bili/BiliWallpaperSource.java:334-338 | with `{1}` shown and two items, picking id 2 leaves `{1, 2}`, as large as the list |
| `Selection.ResetCanRepickShownItem` | app/src/main/java/net/yrom/muzei/bili/BiliWallpaperSource.java:334-340 | a reset in a step that rejects the current artwork lets the loop pick id 1, which was shown when the loop began |
| `Selection.FirstTallEnough` | app/src/main/java/net/yrom/muzei/bili/BiliWallpaperSource.java:347-352 | the search stops at the first rendition whose height reaches the minimum; every earlier one is lower |
| `Selection.SelectResolution` | app/src/main/java/net/yrom/muzei/bili/BiliWallpaperSource.java:345-357 | an empty list is an index-out-of-bounds error and nothing else is; a tall-enough result is the first tall-enough entry; a lower result is the last entry and every entry is lower; whenever some entry is tall enough, the result is |
| `Selection.ResolutionExamples` | app/src/main/java/net/yrom/muzei/bili/BiliWallpaperSource.java:345-357 | heights 480, 720, 1080: a minimum of 700 gives 720, a minimum of 2000 gives 1080 |
| `Tracker.ShownIds.constructor` | app/src/main/java/net/yrom/muzei/bili/BiliWallpaperSource.java:315 | the shown set starts empty |
| `Tracker.ShownIds.Load` | app/src/main/java/net/yrom/muzei/bili/BiliWallpaperSource.java:290-300 | the read loop succeeds exactly when the stored text reads; it then adds exactly the ids read; on the first bad piece it fails with that piece, keeping what it had |
| `Tracker.ShownIds.Save` | app/src/main/java/net/yrom/muzei/bili/BiliWallpaperSource.java:303-310 | the builder loop produces the stored text of the set in ascending order, and the set is cleared |
| `Tracker.ShownIds.SelectWallpaper` | app/src/main/java/net/yrom/muzei/bili/BiliWallpaperSource.java:317-343 | the imperative loop leaves the set and the outcome that `SelectRun` gives; a pick is in the set afterwards, and the set is no larger than the list |
| `Remote.RetriedFrom` | app/src/main/java/net/yrom/muzei/bili/BiliWallpaperSource.java:239-254 | at most three calls and at least one; every call but the last failed in transport; the last one returned, threw something else, or was the third transport failure; the result is what the last call returned (null included), otherwise null |
| `Remote.ThreeTransportFailures` | app/src/main/java/net/yrom/muzei/bili/BiliWallpaperSource.java:241-252 | three transport failures in a row give null after three calls |
| `Remote.Fetch` | app/src/main/java/net/yrom/muzei/bili/BiliWallpaperSource.java:239-254 | the counted loop with `break` returns what `RetriedFrom` describes, with the number of calls made |
| `Remote.FirstWithId` | app/src/main/java/net/yrom/muzei/bili/BiliWallpaperSource.java:270-275 | the scan stops at the first paper with the requested id; every earlier one differs |
| `Remote.Lookup` | app/src/main/java/net/yrom/muzei/bili/BiliWallpaperSource.java:269-275 | nothing is found exactly when no paper has the id; what is found has the id, and no earlier paper has it |
| `Remote.FindById` | app/src/main/java/net/yrom/muzei/bili/BiliWallpaperSource.java:270-275 | the for-each loop with early return finds what `Lookup` describes |
| `Remote.Detail` | app/src/main/java/net/yrom/muzei/bili/BiliWallpaperSource.java:256-276 | a null reply gives null; otherwise nothing is found exactly when no paper in the reply has the requested id, and what is found is the first paper in the reply with that id |
| `Remote.GetDetail` | app/src/main/java/net/yrom/muzei/bili/BiliWallpaperSource.java:256-276 | the retried call followed by the scan gives what `Detail` describes |
| `Pipeline.CurrentId` | app/src/main/java/net/yrom/muzei/bili/BiliWallpaperSource.java:318 | with no current artwork the current id is 0 |
| `Pipeline.FirstMedium` | app/src/main/java/net/yrom/muzei/bili/BiliWallpaperSource.java:227 | the search finds the first `_m.` of the URL, if there is one |
| `Pipeline.LargeImageUrl` | app/src/main/java/net/yrom/muzei/bili/BiliWallpaperSource.java:227 | the length is kept; a URL without `_m.` is unchanged; otherwise exactly the first `_m.` becomes `_l.` |
| `Pipeline.FirstOccurrenceReplaced` | app/src/main/java/net/yrom/muzei/bili/BiliWallpaperSource.java:227 | `foo_m.jpg` becomes `foo_l.jpg` |
| `Pipeline.OnlyFirstOccurrenceReplaced` | app/src/main/java/net/yrom/muzei/bili/BiliWallpaperSource.java:227 | `a_m.b_m.jpg` becomes `a_l.b_m.jpg` |
| `Pipeline.Byline` | app/src/main/java/net/yrom/muzei/bili/BiliWallpaperSource.java:230-232 | the byline is the author's name and `, `, then the posting time (seconds, given to the formatter in milliseconds) formatted, then a newline and the category |
| `Pipeline.ArtworkFor` | app/src/main/java/net/yrom/muzei/bili/BiliWallpaperSource.java:226-235 | the token reads back in the next cycle as the picked item's id; image and title come from the rendition, the first `_m.` replaced; byline and page come from the list item |
| `Pipeline.InitialTokenParses` | app/src/main/java/net/yrom/muzei/bili/BiliWallpaperSource.java:102 | the bundled picture's token `66138` parses as the number 66138 |
| `Pipeline.InitialArtwork` | app/src/main/java/net/yrom/muzei/bili/BiliWallpaperSource.java:99-106 | the bundled picture is published from the cached file, its token reads back as id 66138, and its page is the wallpaper detail page for that token |
| `Pipeline.Cycle` | app/src/main/java/net/yrom/muzei/bili/BiliWallpaperSource.java:197-237 | a null list asks for a retry; an empty list schedules now + 3 h without publishing; a placeholder-only list fails with an exception; a token that is not a number fails; none of these touches the shown set; past them, the cycle leaves the set the selection left, and an empty candidate list fails, a null detail asks for a retry, a detail without renditions fails, and a detail with renditions publishes the artwork of the chosen rendition for the picked item; every schedule is now + 10 800 000 ms; after a publish the shown set is no larger than the list without its placeholder |
| `Pipeline.PublishedArtwork` | app/src/main/java/net/yrom/muzei/bili/BiliWallpaperSource.java:216-235 | a publish comes from a picked list item (in the list, not the current artwork, now shown); token, byline and page are the list item's; the detail item has the same id; image and title come from its chosen rendition, with the first `_m.` replaced |
| `Pipeline.OnTryUpdate` | app/src/main/java/net/yrom/muzei/bili/BiliWallpaperSource.java:197-237 | the imperative cycle, which drops the placeholder by taking the rest of the list, returns the action and leaves the shown set that `Cycle` describes |
| `Pipeline.OnUpdate` | app/src/main/java/net/yrom/muzei/bili/BiliWallpaperSource.java:92-114 | an initial update with the bundled picture cached publishes it with token `66138` and schedules now + 900 000 ms, leaving the shown set alone; any other update runs the regular cycle |
| `Pipeline.ListTransportFailsThrice` | app/src/main/java/net/yrom/muzei/bili/BiliWallpaperSource.java:206-209 | three transport failures on the list call ask for a retry and leave the shown set unchanged |
| `Pipeline.PlaceholderOnly` | app/src/main/java/net/yrom/muzei/bili/BiliWallpaperSource.java:210-216 | a list holding only the placeholder fails at `nextInt(0)` with the shown set unchanged |
| `Pipeline.SkipsItemWithoutRenditions` | app/src/main/java/net/yrom/muzei/bili/BiliWallpaperSource.java:215-229 | placeholder, an item without renditions (id 1), and one with a rendition (id 2): drawing both marks 1 shown and publishes 2 with token `"2"`, leaving `{1, 2}` |

## Left out

- Muzei host calls (`publishArtwork`, `scheduleUpdate`, `getCurrentArtwork`, `setUserCommands`) are foreign APIs. The model returns an `Action` and takes the current token as input. `WallpaperManager.getDesiredMinimumHeight` is an input too.
- The backoff after a `RetryException` belongs to the Muzei base class and is not modelled. Neither is a failed publish call.
- HTTP client construction, Retrofit, executors, per-attempt timeouts and JSON decoding are not modelled. A reply is an already-decoded list. A JSON item without a `detail` field (a null list, which would throw `NullPointerException`) is not modelled.
- `java.util.Random` is replaced by the draws. Its distribution is not modelled, so termination "with probability one" is not a claim here.
- `onCustomCommand` (share, view more), toasts and handlers are UI and not modelled.
- `saveInitialPicture`, `getCacheFile` and `copy` are file I/O. Only "the cached file exists, at this URI" is modelled.
- The `yyyy-MM-dd` date formatting depends on locale and time zone. It is a function parameter.
- `SharedPreferences` storage itself and the connection-manager shutdown in `onDestroy` are not modelled.
- `Decimal.ParseInt`: digits are ASCII only. `Integer.parseInt` also accepts other Unicode decimal digits.
- The byline's `posttime * 1000` is computed on unbounded integers. Java's 64-bit overflow for absurd timestamps is not modelled.
- `Tracker.ShownIds.Load`: when a piece fails to parse, the contract states only that the set grew. It does not say which ids before the bad piece were added.
- `Tracker.ShownIds`: the Java set is a static field shared by every instance of the source. The model passes one `ShownIds` object to each operation instead.
- `ShownIdsFormat.Split`: Java's `split` drops trailing empty strings, and the model keeps them. Only empty pieces differ, and reading skips them, so the ids read are the same.
- `Pipeline.OnTryUpdate`: `wallpapers.remove(0)` changes the list in place. The model takes the rest of the list as a new value instead. The list is local to the cycle, so no other code sees the difference.
