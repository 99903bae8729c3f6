/** `extractFramesFromVideo` (utils.ts): a strictly sequential pass over the image suggestions
    that seeks a hidden video element to each usable timestamp and keeps the captured still.

    The browser is abstracted: a `Video` says whether its metadata loads, the duration it
    reports and what each seek reports; the object URL of the file is an entry in an
    `ObjectUrls` registry; the promise handed back to the caller is a `Settlement`. */
module FrameExtractor {
  import opened Types
  import TimestampParser

  /** What the element reports after `currentTime` is set: a `seeked` event, after which the
      canvas yields the encoded still, or an `error` event. */
  datatype SeekReport = Seeked(image: string) | SeekError

  /** The decoder behind the hidden element. `seek(i)` is what the seek made for the
      suggestion at position `i` reports; each suggestion seeks at most once, so this is as
      general as an oracle per seek. */
  datatype Video = Video(loads: bool, duration: real, seek: nat -> SeekReport)

  /** A promise: once fulfilled or rejected, later calls of `resolve` or `reject` are ignored. */
  datatype Settlement<+T> = Pending | Fulfilled(value: T) | Rejected(reason: string)

  /** `resolve` or `reject` called on `promise` with `outcome`. */
  function Settle<T>(promise: Settlement<T>, outcome: Settlement<T>): (r: Settlement<T>) {
    if promise.Pending? then outcome else promise
  }

  /** The first outcome wins: once a promise is settled, a later `resolve` or `reject`
      leaves it as it is. */
  lemma SettleFirstWins<T>(promise: Settlement<T>, first: Settlement<T>, later: Settlement<T>)
    requires !first.Pending?
    ensures !Settle(promise, first).Pending?
    ensures Settle(Settle(promise, first), later) == Settle(promise, first)
    ensures promise.Pending? ==> Settle(Settle(promise, first), later) == first
  {
  }

  const CanvasContextError: string := "Canvas context could not be created."
  const LoadError: string := "Failed to load video file."

  /** The page's object URLs (`URL.createObjectURL` / `URL.revokeObjectURL`): the ones alive,
      the next fresh one, and every revocation in order. */
  class ObjectUrls {
    var live: set<nat>
    var next: nat
    var revocations: seq<nat>

    ghost predicate Valid()
      reads this
    {
      forall url :: url in live ==> url < next
    }

    constructor ()
      ensures Valid() && live == {} && next == 0 && revocations == []
    {
      live, next, revocations := {}, 0, [];
    }

    method Create() returns (url: nat)
      requires Valid()
      modifies this
      ensures Valid()
      ensures url == old(next) && url !in old(live) && next == old(next) + 1
      ensures live == old(live) + {url} && revocations == old(revocations)
    {
      url := next;
      live := live + {url};
      next := next + 1;
    }

    method Revoke(url: nat)
      requires Valid()
      modifies this
      ensures Valid()
      ensures live == old(live) - {url} && next == old(next)
      ensures revocations == old(revocations) + [url]
    {
      live := live - {url};
      revocations := revocations + [url];
    }
  }

  /** utils.ts:42-43: a suggestion is tried only when its time parses and is not past the end
      of the video; a time equal to the duration is tried. */
  predicate InRange(video: Video, suggestion: ImageSuggestion) {
    var t := TimestampParser.ParseTimestamp(suggestion.time);
    t.Some? && t.value as real <= video.duration
  }

  /** What happens to one suggestion. */
  datatype Attempt = Skipped | Captured(frame: ExtractedFrame) | SeekFailed

  function AttemptAt(video: Video, suggestion: ImageSuggestion, i: nat): (a: Attempt)
    ensures !InRange(video, suggestion) ==> a.Skipped?
    ensures a.Captured? ==> a.frame.time == suggestion.time && a.frame.description == suggestion.description
  {
    if !InRange(video, suggestion) then Skipped
    else match video.seek(i)
      case Seeked(image) => Captured(ExtractedFrame(suggestion.time, suggestion.description, image))
      case SeekError => SeekFailed
  }

  function Emitted(a: Attempt): (frames: seq<ExtractedFrame>) {
    if a.Captured? then [a.frame] else []
  }

  /** The frames captured from the first `n` suggestions, in their order. */
  function FramesUpTo(video: Video, suggestions: seq<ImageSuggestion>, n: nat): (frames: seq<ExtractedFrame>)
    requires n <= |suggestions|
    ensures |frames| <= n
  {
    if n == 0 then [] else FramesUpTo(video, suggestions, n - 1) + Emitted(AttemptAt(video, suggestions[n - 1], n - 1))
  }

  /** How many of the first `n` suggestions had a seek that reported an error. */
  function SeekErrorsUpTo(video: Video, suggestions: seq<ImageSuggestion>, n: nat): (k: nat)
    requires n <= |suggestions|
    ensures k + |FramesUpTo(video, suggestions, n)| <= n
  {
    if n == 0 then 0
    else SeekErrorsUpTo(video, suggestions, n - 1) + (if AttemptAt(video, suggestions[n - 1], n - 1).SeekFailed? then 1 else 0)
  }

  /** The positions, among the first `n`, of the suggestions that became frames: strictly
      increasing, each paired with the frame at the same place. */
  function CapturedIndicesUpTo(video: Video, suggestions: seq<ImageSuggestion>, n: nat): (ix: seq<nat>)
    requires n <= |suggestions|
    ensures |ix| == |FramesUpTo(video, suggestions, n)|
  {
    if n == 0 then []
    else CapturedIndicesUpTo(video, suggestions, n - 1) + (if AttemptAt(video, suggestions[n - 1], n - 1).Captured? then [n - 1] else [])
  }

  /** Each recorded position is below `n` and its suggestion was captured as the frame at the
      same place; the positions strictly increase. */
  lemma {:induction false} CapturedIndicesSound(video: Video, suggestions: seq<ImageSuggestion>, n: nat)
    requires n <= |suggestions|
    ensures forall k :: 0 <= k < |CapturedIndicesUpTo(video, suggestions, n)| ==>
      && CapturedIndicesUpTo(video, suggestions, n)[k] < n
      && AttemptAt(video, suggestions[CapturedIndicesUpTo(video, suggestions, n)[k]], CapturedIndicesUpTo(video, suggestions, n)[k])
         == Captured(FramesUpTo(video, suggestions, n)[k])
    ensures forall k, l :: 0 <= k < l < |CapturedIndicesUpTo(video, suggestions, n)| ==>
      CapturedIndicesUpTo(video, suggestions, n)[k] < CapturedIndicesUpTo(video, suggestions, n)[l]
  {
    if n > 0 {
      CapturedIndicesSound(video, suggestions, n - 1);
      var a := AttemptAt(video, suggestions[n - 1], n - 1);
      var ix, frames := CapturedIndicesUpTo(video, suggestions, n), FramesUpTo(video, suggestions, n);
      var ix', frames' := CapturedIndicesUpTo(video, suggestions, n - 1), FramesUpTo(video, suggestions, n - 1);
      if a.Captured? {
        assert ix == ix' + [n - 1] && frames == frames' + [a.frame];
        forall k | 0 <= k < |ix|
          ensures ix[k] < n && AttemptAt(video, suggestions[ix[k]], ix[k]) == Captured(frames[k])
        {
          if k < |ix'| {
            assert ix[k] == ix'[k] && frames[k] == frames'[k];
          }
        }
        forall k, l | 0 <= k < l < |ix|
          ensures ix[k] < ix[l]
        {
          assert ix[k] == ix'[k];
          if l < |ix'| {
            assert ix[l] == ix'[l];
          }
        }
      } else {
        assert ix == ix' && frames == frames';
      }
    }
  }

  /** The frames of the whole list. */
  function Frames(video: Video, suggestions: seq<ImageSuggestion>): (frames: seq<ExtractedFrame>)
    ensures |frames| <= |suggestions|
  {
    FramesUpTo(video, suggestions, |suggestions|)
  }

  /** How many seeks reported an error. */
  function SeekErrors(video: Video, suggestions: seq<ImageSuggestion>): (k: nat) {
    SeekErrorsUpTo(video, suggestions, |suggestions|)
  }

  /** The positions of the suggestions that became frames. */
  function CapturedIndices(video: Video, suggestions: seq<ImageSuggestion>): (ix: seq<nat>) {
    CapturedIndicesUpTo(video, suggestions, |suggestions|)
  }

  /** The frames are an order-preserving selection of the suggestions: each comes from a
      distinct suggestion, later frames from later suggestions, with its time and description. */
  lemma FramesAreOrderedSelection(video: Video, suggestions: seq<ImageSuggestion>)
    ensures var frames, ix := Frames(video, suggestions), CapturedIndices(video, suggestions);
      && |ix| == |frames| <= |suggestions|
      && (forall k :: 0 <= k < |frames| ==>
            && ix[k] < |suggestions|
            && frames[k].time == suggestions[ix[k]].time
            && frames[k].description == suggestions[ix[k]].description
            && InRange(video, suggestions[ix[k]]))
      && (forall k, l :: 0 <= k < l < |frames| ==> ix[k] < ix[l])
  {
    var frames, ix := Frames(video, suggestions), CapturedIndices(video, suggestions);
    CapturedIndicesSound(video, suggestions, |suggestions|);
    forall k | 0 <= k < |frames|
      ensures InRange(video, suggestions[ix[k]])
    {
      assert AttemptAt(video, suggestions[ix[k]], ix[k]).Captured?;
    }
  }

  /** Every captured suggestion among the first `n` is among the frames. */
  lemma {:induction false} CapturedIndicesComplete(video: Video, suggestions: seq<ImageSuggestion>, n: nat, j: nat)
    requires j < n <= |suggestions| && AttemptAt(video, suggestions[j], j).Captured?
    ensures j in CapturedIndicesUpTo(video, suggestions, n)
  {
    var prev, ix := CapturedIndicesUpTo(video, suggestions, n - 1), CapturedIndicesUpTo(video, suggestions, n);
    if j < n - 1 {
      CapturedIndicesComplete(video, suggestions, n - 1, j);
      assert ix == prev + (if AttemptAt(video, suggestions[n - 1], n - 1).Captured? then [n - 1] else []);
      assert j in prev;
    } else {
      assert ix == prev + [j];
      assert ix[|prev|] == j;
    }
  }

  /** A position is among the frames exactly when its suggestion was captured. */
  lemma CapturedIndicesMembership(video: Video, suggestions: seq<ImageSuggestion>, j: nat)
    ensures j in CapturedIndices(video, suggestions) <==>
      j < |suggestions| && AttemptAt(video, suggestions[j], j).Captured?
  {
    CapturedIndicesSound(video, suggestions, |suggestions|);
    if j < |suggestions| && AttemptAt(video, suggestions[j], j).Captured? {
      CapturedIndicesComplete(video, suggestions, |suggestions|, j);
    }
  }

  /** A suggestion whose time is `NaN` or past the end never yields a frame. */
  lemma OutOfRangeNeverExtracted(video: Video, suggestions: seq<ImageSuggestion>, j: nat)
    requires j < |suggestions| && !InRange(video, suggestions[j])
    ensures j !in CapturedIndices(video, suggestions)
  {
    CapturedIndicesMembership(video, suggestions, j);
  }

  /** A suggestion whose time parses to at most the duration, the duration itself included,
      and whose seek succeeds always yields a frame. */
  lemma UpToDurationExtracted(video: Video, suggestions: seq<ImageSuggestion>, j: nat)
    requires j < |suggestions| && video.seek(j).Seeked?
    requires TimestampParser.ParseTimestamp(suggestions[j].time).Some?
    requires TimestampParser.ParseTimestamp(suggestions[j].time).value as real <= video.duration
    ensures j in CapturedIndices(video, suggestions)
  {
    CapturedIndicesMembership(video, suggestions, j);
  }

  /** When every time is usable and every seek succeeds, each of the first `n` suggestions
      yields its frame. */
  lemma {:induction false} AllSucceedUpTo(video: Video, suggestions: seq<ImageSuggestion>, n: nat)
    requires n <= |suggestions|
    requires forall j :: 0 <= j < n ==> InRange(video, suggestions[j]) && video.seek(j).Seeked?
    ensures |FramesUpTo(video, suggestions, n)| == n
    ensures forall k :: 0 <= k < n ==>
      FramesUpTo(video, suggestions, n)[k] == ExtractedFrame(suggestions[k].time, suggestions[k].description, video.seek(k).image)
  {
    if n > 0 {
      AllSucceedUpTo(video, suggestions, n - 1);
      var last := suggestions[n - 1];
      var frame := ExtractedFrame(last.time, last.description, video.seek(n - 1).image);
      assert AttemptAt(video, last, n - 1) == Captured(frame);
      var prev, frames := FramesUpTo(video, suggestions, n - 1), FramesUpTo(video, suggestions, n);
      assert frames == prev + [frame];
      forall k | 0 <= k < n
        ensures frames[k] == ExtractedFrame(suggestions[k].time, suggestions[k].description, video.seek(k).image)
      {
        if k < n - 1 {
          assert frames[k] == prev[k];
        }
      }
    }
  }

  /** When every time is usable and every seek succeeds, there is one frame per suggestion,
      in the same order. */
  lemma AllSucceed(video: Video, suggestions: seq<ImageSuggestion>)
    requires forall j :: 0 <= j < |suggestions| ==> InRange(video, suggestions[j]) && video.seek(j).Seeked?
    ensures |Frames(video, suggestions)| == |suggestions|
    ensures forall k :: 0 <= k < |suggestions| ==>
      Frames(video, suggestions)[k] == ExtractedFrame(suggestions[k].time, suggestions[k].description, video.seek(k).image)
  {
    AllSucceedUpTo(video, suggestions, |suggestions|);
  }

  /** The same video, except that the seek for position `j` reports an error. */
  function FailSeekAt(video: Video, j: nat): (v: Video)
    ensures v.loads == video.loads && v.duration == video.duration && v.seek(j) == SeekError
    ensures forall i :: i != j ==> v.seek(i) == video.seek(i)
  {
    video.(seek := (i: nat) => if i == j then SeekError else video.seek(i))
  }

  /** A failed seek drops its own suggestion and no other. */
  lemma SeekFailureDropsOnlyItsSuggestion(video: Video, suggestions: seq<ImageSuggestion>, j: nat)
    ensures forall k :: k in CapturedIndices(FailSeekAt(video, j), suggestions) <==>
      k in CapturedIndices(video, suggestions) && k != j
  {
    var failed := FailSeekAt(video, j);
    forall k
      ensures k in CapturedIndices(failed, suggestions) <==> k in CapturedIndices(video, suggestions) && k != j
    {
      CapturedIndicesMembership(failed, suggestions, k);
      CapturedIndicesMembership(video, suggestions, k);
    }
  }

  /** What the caller's promise ends as, as the code is written: a seek error also reaches
      `video.onerror`, which rejects the whole extraction. */
  function WrittenOutcome(canvasOk: bool, video: Video, suggestions: seq<ImageSuggestion>): (outcome: Settlement<seq<ExtractedFrame>>) {
    if !canvasOk then Rejected(CanvasContextError)
    else if !video.loads || SeekErrors(video, suggestions) > 0 then Rejected(LoadError)
    else Fulfilled(Frames(video, suggestions))
  }

  /** How many times the code as written revokes its object URL. */
  function WrittenRevocations(canvasOk: bool, video: Video, suggestions: seq<ImageSuggestion>): (revoked: nat) {
    if !canvasOk then 0 else if !video.loads then 1 else 1 + SeekErrors(video, suggestions)
  }

  /** What the promise ends as when a failed seek only skips its suggestion. */
  function IsolatedOutcome(canvasOk: bool, video: Video, suggestions: seq<ImageSuggestion>): (outcome: Settlement<seq<ExtractedFrame>>) {
    if !canvasOk then Rejected(CanvasContextError)
    else if !video.loads then Rejected(LoadError)
    else Fulfilled(Frames(video, suggestions))
  }

  /** `n` revocations of `url`. */
  function Repeat(url: nat, n: nat): (r: seq<nat>)
    ensures |r| == n
  {
    if n == 0 then [] else Repeat(url, n - 1) + [url]
  }

  /** Each entry of `Repeat(url, n)` is `url`. */
  lemma {:induction false} RepeatAll(url: nat, n: nat)
    ensures forall k :: 0 <= k < n ==> Repeat(url, n)[k] == url
  {
    if n > 0 {
      RepeatAll(url, n - 1);
      assert forall k :: 0 <= k < n - 1 ==> Repeat(url, n)[k] == Repeat(url, n - 1)[k];
    }
  }

  /** One more revocation of `url` after `n` of them. */
  lemma RevokeOnceMore(before: seq<nat>, url: nat, n: nat)
    ensures before + Repeat(url, n) + [url] == before + Repeat(url, n + 1)
  {
    assert Repeat(url, n + 1) == Repeat(url, n) + [url];
  }

  /** utils.ts:42-66 for one suggestion: parse its time, skip it when unusable, otherwise seek
      and wait for `seeked` (the still is drawn and encoded) or `error`. */
  method TrySuggestion(video: Video, suggestion: ImageSuggestion, i: nat) returns (a: Attempt)
    ensures a == AttemptAt(video, suggestion, i)
  {
    var timeInSeconds := TimestampParser.ParseTimestamp(suggestion.time);
    if timeInSeconds.None? || timeInSeconds.value as real > video.duration {
      return Skipped;
    }
    match video.seek(i)
    case Seeked(image) =>
      a := Captured(ExtractedFrame(suggestion.time, suggestion.description, image));
    case SeekError =>
      a := SeekFailed;
  }

  /** `video.onerror` (utils.ts:77-80): revoke the object URL and reject the promise. */
  method OnError(urls: ObjectUrls, url: nat, promise: Settlement<seq<ExtractedFrame>>)
    returns (settled: Settlement<seq<ExtractedFrame>>)
    requires urls.Valid()
    modifies urls
    ensures urls.Valid() && urls.next == old(urls.next)
    ensures urls.live == old(urls.live) - {url} && urls.revocations == old(urls.revocations) + [url]
    ensures settled == Settle(promise, Rejected(LoadError))
  {
    urls.Revoke(url);
    settled := Settle(promise, Rejected(LoadError));
  }

  /** `video.onloadedmetadata` as written (utils.ts:34-75). A failed seek dispatches the
      element's `error` event, which runs `onerror` as well as the listener of that seek. */
  method OnLoadedMetadata(urls: ObjectUrls, url: nat, video: Video, suggestions: seq<ImageSuggestion>)
    returns (settled: Settlement<seq<ExtractedFrame>>)
    requires urls.Valid() && url in urls.live
    modifies urls
    ensures urls.Valid() && urls.next == old(urls.next)
    ensures urls.live == old(urls.live) - {url}
    ensures urls.revocations == old(urls.revocations) + Repeat(url, 1 + SeekErrors(video, suggestions))
    ensures settled == if SeekErrors(video, suggestions) == 0 then Fulfilled(Frames(video, suggestions)) else Rejected(LoadError)
  {
    var promise: Settlement<seq<ExtractedFrame>> := Pending;
    var extractedFrames: seq<ExtractedFrame> := [];
    ghost var errors: nat := 0;
    for i := 0 to |suggestions|
      invariant urls.Valid() && urls.next == old(urls.next)
      invariant extractedFrames == FramesUpTo(video, suggestions, i)
      invariant errors == SeekErrorsUpTo(video, suggestions, i)
      invariant promise == if errors == 0 then Pending else Rejected(LoadError)
      invariant urls.live == if errors == 0 then old(urls.live) else old(urls.live) - {url}
      invariant urls.revocations == old(urls.revocations) + Repeat(url, errors)
    {
      var attempt := TrySuggestion(video, suggestions[i], i);
      match attempt
      case Skipped =>
        continue;
      case Captured(frame) =>
        extractedFrames := extractedFrames + [frame];
      case SeekFailed =>
        RevokeOnceMore(old(urls.revocations), url, errors);
        promise := OnError(urls, url, promise);
        errors := errors + 1;
    }
    RevokeOnceMore(old(urls.revocations), url, errors);
    urls.Revoke(url);
    settled := Settle(promise, Fulfilled(extractedFrames));
  }

  /** The code as written. */
  method ExtractFramesFromVideo(urls: ObjectUrls, canvasOk: bool, video: Video, suggestions: seq<ImageSuggestion>)
    returns (outcome: Settlement<seq<ExtractedFrame>>)
    requires urls.Valid()
    modifies urls
    ensures urls.Valid()
    ensures outcome == WrittenOutcome(canvasOk, video, suggestions)
    ensures urls.live == old(urls.live)
    ensures urls.next == old(urls.next) + (if canvasOk then 1 else 0)
    ensures urls.revocations == old(urls.revocations) + Repeat(old(urls.next), WrittenRevocations(canvasOk, video, suggestions))
  {
    if !canvasOk {
      return Rejected(CanvasContextError);
    }
    var url := urls.Create();
    if !video.loads {
      outcome := OnError(urls, url, Pending);
    } else {
      outcome := OnLoadedMetadata(urls, url, video, suggestions);
    }
  }

  /** The intended behaviour: `onerror` only guards the loading of the file, so a failed seek
      skips its suggestion and the object URL is revoked exactly once. */
  method ExtractFramesIsolated(urls: ObjectUrls, canvasOk: bool, video: Video, suggestions: seq<ImageSuggestion>)
    returns (outcome: Settlement<seq<ExtractedFrame>>)
    requires urls.Valid()
    modifies urls
    ensures urls.Valid()
    ensures outcome == IsolatedOutcome(canvasOk, video, suggestions)
    ensures urls.live == old(urls.live)
    ensures urls.next == old(urls.next) + (if canvasOk then 1 else 0)
    ensures urls.revocations == old(urls.revocations) + (if canvasOk then [old(urls.next)] else [])
  {
    if !canvasOk {
      return Rejected(CanvasContextError);
    }
    var url := urls.Create();
    if !video.loads {
      urls.Revoke(url);
      return Rejected(LoadError);
    }
    var extractedFrames: seq<ExtractedFrame> := [];
    ghost var liveNow, revokedNow := urls.live, urls.revocations;
    for i := 0 to |suggestions|
      invariant urls.Valid() && urls.next == url + 1 && urls.live == liveNow && urls.revocations == revokedNow
      invariant extractedFrames == FramesUpTo(video, suggestions, i)
    {
      var attempt := TrySuggestion(video, suggestions[i], i);
      if attempt.Captured? {
        extractedFrames := extractedFrames + [attempt.frame];
      }
    }
    urls.Revoke(url);
    outcome := Fulfilled(extractedFrames);
  }

  /** Without a seek error the two agree: the URL is revoked once and the frames are the same. */
  lemma WrittenAgreesWithoutSeekErrors(canvasOk: bool, video: Video, suggestions: seq<ImageSuggestion>)
    requires SeekErrors(video, suggestions) == 0
    ensures WrittenOutcome(canvasOk, video, suggestions) == IsolatedOutcome(canvasOk, video, suggestions)
    ensures WrittenRevocations(canvasOk, video, suggestions) == if canvasOk then 1 else 0
  {
  }

  /** A ten-second video whose second seek fails, and two suggestions inside it. */
  function ExampleVideo(): (video: Video) {
    Video(true, 10.0, (i: nat) => if i == 1 then SeekError else Seeked("still"))
  }

  /** Suggestions at one and two seconds. */
  function ExampleSuggestions(): (suggestions: seq<ImageSuggestion>) {
    [ImageSuggestion("1", "intro"), ImageSuggestion("2", "demo")]
  }

  /** In the example, the first suggestion is captured and the second one's seek fails. */
  lemma ExampleAttempts()
    ensures AttemptAt(ExampleVideo(), ExampleSuggestions()[0], 0) == Captured(ExtractedFrame("1", "intro", "still"))
    ensures AttemptAt(ExampleVideo(), ExampleSuggestions()[1], 1) == SeekFailed
  {
    TimestampParser.WholeSeconds("1");
    TimestampParser.WholeSeconds("2");
    assert TimestampParser.DigitsValue("1") == 1 by { assert "1"[..0] == ""; }
    assert TimestampParser.DigitsValue("2") == 2 by { assert "2"[..0] == ""; }
  }

  /** Two usable suggestions where the second seek fails: as written, the frame already
      captured is lost, the caller sees "Failed to load video file." and the object URL is
      revoked twice; with the failure isolated, the caller gets that frame. */
  lemma OneSeekErrorLosesEveryFrame()
    ensures WrittenOutcome(true, ExampleVideo(), ExampleSuggestions()) == Rejected(LoadError)
    ensures WrittenRevocations(true, ExampleVideo(), ExampleSuggestions()) == 2
    ensures IsolatedOutcome(true, ExampleVideo(), ExampleSuggestions()) == Fulfilled([ExtractedFrame("1", "intro", "still")])
  {
    ExampleAttempts();
    var video, suggestions := ExampleVideo(), ExampleSuggestions();
    assert FramesUpTo(video, suggestions, 1) == [ExtractedFrame("1", "intro", "still")];
    assert SeekErrorsUpTo(video, suggestions, 1) == 0;
    assert Emitted(AttemptAt(video, suggestions[1], 1)) == [];
    assert Frames(video, suggestions) == FramesUpTo(video, suggestions, 1);
  }
}
