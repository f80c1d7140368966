/** The audience counters and the short-video feed of api/mock.js:
    `likeComment` / `likeShortVideo` move a like count by one and clamp it at
    zero, and `getShortVideos` numbers a page of twelve videos from its page
    arguments. The random like counts and durations of the feed are left out. */
module Feed {
  import opened Wrappers
  import opened Strings

  /** The like count after `like*(id, liked, currentLikes = 0)`; an absent count is `None`. */
  function NextLikes(liked: bool, currentLikes: Option<int>): (likes: int)
    ensures likes >= 0
    ensures var c := if currentLikes.Some? then currentLikes.value else 0;
      && (liked ==> likes == if c + 1 < 0 then 0 else c + 1)
      && (!liked ==> likes == if c - 1 < 0 then 0 else c - 1)
  {
    var c := if currentLikes.Some? then currentLikes.value else 0;
    var delta := if liked then 1 else -1;
    if c + delta < 0 then 0 else c + delta
  }

  /** Liking then unliking restores any count that was not negative, and unliking then liking restores
      any positive count; unliking at zero stays at zero, so a following like gives one. */
  lemma LikeUnlikeRoundTrip(c: int)
    ensures c >= 0 ==> NextLikes(false, Some(NextLikes(true, Some(c)))) == c
    ensures c >= 1 ==> NextLikes(true, Some(NextLikes(false, Some(c)))) == c
    ensures NextLikes(false, Some(0)) == 0 && NextLikes(true, Some(NextLikes(false, Some(0)))) == 1
    ensures NextLikes(true, None) == 1 && NextLikes(false, None) == 0
  {
  }

  /** One feed entry; the random `likes` and `duration` are not part of this model. */
  datatype ShortVideo = ShortVideo(id: int, title: string, cover: string, videoUrl: string, liked: bool, tags: string)

  /** The `getShortVideos` reply. */
  datatype VideoPage = VideoPage(videos: seq<ShortVideo>, page: int, pageSize: int)

  const FeedLength: nat := 12
  const DefaultFeedPageSize: int := 12
  const FirstVideoId: int := 100
  const FeedVideoUrl: string := "https://interactive-examples.mdn.mozilla.net/media/cc0-videos/flower.mp4"
  const FeedTags: seq<string> := ["都市", "情感", "热播"]

  /** `x || d` for a numeric argument: an absent or zero value falls back to `d`. */
  function OrDefault(x: Option<int>, d: int): (r: int)
    ensures x.Some? && x.value != 0 ==> r == x.value
    ensures x.None? || x.value == 0 ==> r == d
  {
    if x.Some? && x.value != 0 then x.value else d
  }

  /** The entry at position `i` of a page whose first id is `base`: id `base + i`, not liked, the shared
      video, and the tags cycling every three entries. */
  function FeedEntry(base: int, i: nat): (v: ShortVideo)
    requires i < FeedLength
    ensures v.id == base + i && !v.liked && v.videoUrl == FeedVideoUrl
    ensures v.tags == FeedTags[i % 3] && v.tags in FeedTags
  {
    var id := base + i;
    ShortVideo(id, "短视频 #" + IntToDecimal(id), "https://via.placeholder.com/400x700?text=Video+" + IntToDecimal(id),
      FeedVideoUrl, false, FeedTags[i % 3])
  }

  /** The first id of a page: `100 + ((page || 1) - 1) * (pageSize || 12)`. The first page starts at 100,
      and no page with positive arguments starts below it. */
  function FeedBase(page: Option<int>, pageSize: Option<int>): (base: int)
    ensures OrDefault(page, 1) == 1 ==> base == FirstVideoId
    ensures OrDefault(page, 1) >= 1 && OrDefault(pageSize, DefaultFeedPageSize) >= 0 ==> base >= FirstVideoId
  {
    var p, size := OrDefault(page, 1), OrDefault(pageSize, DefaultFeedPageSize);
    assert p >= 1 && size >= 0 ==> (p - 1) * size >= 0 by {
      if p >= 1 && size >= 0 {
        assert (p - 1) >= 0;
      }
    }
    FirstVideoId + (p - 1) * size
  }

  /** `getShortVideos({ page, pageSize })`. */
  function GetShortVideos(page: Option<int>, pageSize: Option<int>): (r: VideoPage)
    ensures |r.videos| == FeedLength
    ensures r.page == OrDefault(page, 1) && r.pageSize == OrDefault(pageSize, DefaultFeedPageSize)
    ensures FeedBase(page, pageSize) == FirstVideoId + (r.page - 1) * r.pageSize
    ensures forall i :: 0 <= i < |r.videos| ==>
      && r.videos[i].id == FeedBase(page, pageSize) + i
      && r.videos[i].tags == FeedTags[i % 3]
      && !r.videos[i].liked
  {
    var base := FeedBase(page, pageSize);
    VideoPage(seq(FeedLength, i requires 0 <= i < FeedLength => FeedEntry(base, i)),
      OrDefault(page, 1), OrDefault(pageSize, DefaultFeedPageSize))
  }

  /** Twelve entries numbered from `base`, with the tags cycling, are consecutive and increasing. */
  lemma NumberedFrom(v: seq<ShortVideo>, base: int)
    requires forall i :: 0 <= i < |v| ==> v[i].id == base + i && v[i].tags == FeedTags[i % 3]
    ensures forall i :: 0 <= i < |v| - 1 ==> v[i + 1].id == v[i].id + 1
    ensures forall i :: 0 <= i < |v| - 3 ==> v[i + 3].tags == v[i].tags
    ensures forall i, j :: 0 <= i < j < |v| ==> v[i].id < v[j].id
  {
    forall i | 0 <= i < |v| - 3 ensures v[i + 3].tags == v[i].tags {
      assert (i + 3) % 3 == i % 3;
    }
  }

  /** The ids of one page are twelve consecutive numbers, and the tags cycle with period three. */
  lemma FeedIdsConsecutive(page: Option<int>, pageSize: Option<int>)
    ensures var v := GetShortVideos(page, pageSize).videos;
      && (forall i :: 0 <= i < |v| - 1 ==> v[i + 1].id == v[i].id + 1)
      && (forall i :: 0 <= i < |v| - 3 ==> v[i + 3].tags == v[i].tags)
      && (forall i, j :: 0 <= i < j < |v| ==> v[i].id < v[j].id)
  {
    NumberedFrom(GetShortVideos(page, pageSize).videos, FeedBase(page, pageSize));
  }

  /** With the default page size, page `p + 1` starts right after page `p` ends: consecutive pages tile the ids. */
  lemma DefaultPagesTile(p: int)
    requires p >= 1
    ensures var a, b := GetShortVideos(Some(p), None).videos, GetShortVideos(Some(p + 1), None).videos;
      b[0].id == a[|a| - 1].id + 1
  {
    assert (p + 1 - 1) * 12 == (p - 1) * 12 + 12;
  }

  /** A page size below twelve still yields twelve videos, so consecutive pages share ids. */
  lemma SmallPageSizeOverlaps(p: int, size: int)
    requires p >= 1 && 1 <= size < 12
    ensures var a, b := GetShortVideos(Some(p), Some(size)).videos, GetShortVideos(Some(p + 1), Some(size)).videos;
      b[0].id == a[size].id
  {
    assert (p + 1 - 1) * size == (p - 1) * size + size;
  }
}
