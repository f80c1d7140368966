/** The drama catalog of api/mock.js (`db`): drama records with their episodes,
    an auto-increment id counter, creation and lookup, the episode-video
    patch-back a finished generation task performs, and the `getSeason` reply. */
module Dramas {
  import opened Wrappers
  import opened Strings
  import opened Lists

  /** One episode of a drama's season. */
  datatype Episode = Episode(ep: int, title: string, duration: int, isFree: bool, price: real, videoUrl: Option<string>)

  /** A drama record. `createdAt` is absent on the two seed records. */
  datatype Drama = Drama(
    id: int,
    title: string,
    description: string,
    genre: string,
    duration: int,
    rating: real,
    views: int,
    likes: int,
    coverImage: string,
    scriptContent: string,
    creatorId: int,
    seasonPrice: real,
    aiGenerated: bool,
    createdAt: Option<string>,
    episodes: seq<Episode>)

  /** The fields `createDrama` reads. `None` is an absent field; `episodes` is `None`
      when absent or when its JSON text does not parse. */
  datatype DramaInput = DramaInput(
    title: string,
    description: string,
    genre: string,
    duration: Option<int>,
    coverImage: Option<string>,
    scriptContent: Option<string>,
    aiGenerated: bool,
    seasonPrice: Option<real>,
    episodes: Option<seq<Episode>>)

  const DefaultCover: string := "https://via.placeholder.com/300x200?text=DRAMA"
  const DefaultDramaDuration: int := 10
  const DefaultSeasonPrice: real := 8.0
  const CreatedByCreatorId: int := 999
  const FirstCreatedId: int := 1000
  const DramaNotFoundMessage: string := "Not found"

  /** The two records the catalog starts with. */
  const SeedDramas: seq<Drama> := [
    Drama(1, "都市情缘", "一个关于现代都市爱情的温馨短剧", "爱情", 15, 4.8, 12500, 890,
      "https://via.placeholder.com/300x200?text=都市情缘",
      "第一场：咖啡厅\n男主角走进咖啡厅，看到女主角正在看书...", 1, 8.0, false, None, []),
    Drama(2, "古风传奇", "穿越古代的奇幻冒险故事", "奇幻", 20, 4.6, 8900, 567,
      "https://via.placeholder.com/300x200?text=古风传奇",
      "第一场：皇宫大殿\n皇帝召见众臣，商议国事...", 1, 8.0, false, None, [])
  ]

  /** The record `createDrama` builds for id `id` at clock reading `now`. */
  function NewDrama(id: int, input: DramaInput, now: string): (d: Drama)
    ensures d.id == id && d.createdAt == Some(now)
    ensures d.views == 0 && d.likes == 0 && d.rating == 0.0 && d.creatorId == CreatedByCreatorId
    ensures d.duration == (if input.duration.Some? && input.duration.value != 0 then input.duration.value else DefaultDramaDuration)
    ensures d.coverImage == (if input.coverImage.Some? && input.coverImage.value != "" then input.coverImage.value else DefaultCover)
    ensures d.seasonPrice == (if input.seasonPrice.Some? then input.seasonPrice.value else DefaultSeasonPrice)
    ensures d.episodes == (if input.episodes.Some? then input.episodes.value else [])
  {
    Drama(
      id, input.title, input.description, input.genre,
      if input.duration.Some? && input.duration.value != 0 then input.duration.value else DefaultDramaDuration,
      0.0, 0, 0,
      if input.coverImage.Some? && input.coverImage.value != "" then input.coverImage.value else DefaultCover,
      if input.scriptContent.Some? then input.scriptContent.value else "",
      CreatedByCreatorId,
      if input.seasonPrice.Some? then input.seasonPrice.value else DefaultSeasonPrice,
      input.aiGenerated,
      Some(now),
      if input.episodes.Some? then input.episodes.value else [])
  }

  /** `dramas.findIndex(d => d.id === id)`. */
  function FindDramaIndex(dramas: seq<Drama>, id: int): (i: int)
    ensures -1 <= i < |dramas|
    ensures i == -1 <==> forall k :: 0 <= k < |dramas| ==> dramas[k].id != id
    ensures 0 <= i ==> dramas[i].id == id && forall k :: 0 <= k < i ==> dramas[k].id != id
  {
    FindFirst(dramas, (d: Drama) => d.id == id)
  }

  /** `episodes.findIndex(e => e.ep === ep)`. */
  function FindEpisodeIndex(episodes: seq<Episode>, ep: int): (i: int)
    ensures -1 <= i < |episodes|
    ensures i == -1 <==> forall k :: 0 <= k < |episodes| ==> episodes[k].ep != ep
    ensures 0 <= i ==> episodes[i].ep == ep && forall k :: 0 <= k < i ==> episodes[k].ep != ep
  {
    FindFirst(episodes, (e: Episode) => e.ep == ep)
  }

  /** The catalog after a finished task writes `url` into episode `ep` of drama `dramaId`:
      only the first matching episode of the first matching drama changes, and only its video. */
  function PatchEpisodeVideo(dramas: seq<Drama>, dramaId: int, ep: int, url: string): (r: seq<Drama>)
    ensures |r| == |dramas|
    ensures forall k :: 0 <= k < |r| ==>
      && r[k] == dramas[k].(episodes := r[k].episodes)
      && |r[k].episodes| == |dramas[k].episodes|
      && forall m :: 0 <= m < |r[k].episodes| ==>
           r[k].episodes[m] == dramas[k].episodes[m].(videoUrl := r[k].episodes[m].videoUrl)
    ensures forall k, m :: 0 <= k < |r| && 0 <= m < |r[k].episodes| ==>
      r[k].episodes[m].videoUrl ==
        if k == FindDramaIndex(dramas, dramaId) && m == FindEpisodeIndex(dramas[k].episodes, ep)
        then Some(url) else dramas[k].episodes[m].videoUrl
  {
    var i := FindDramaIndex(dramas, dramaId);
    if i < 0 then dramas
    else
      var episodes := dramas[i].episodes;
      var j := FindEpisodeIndex(episodes, ep);
      if j < 0 then dramas
      else dramas[i := dramas[i].(episodes := episodes[j := episodes[j].(videoUrl := Some(url))])]
  }

  /** Patching back never changes which ids the catalog holds, nor their order. */
  lemma PatchKeepsIds(dramas: seq<Drama>, dramaId: int, ep: int, url: string)
    ensures var r := PatchEpisodeVideo(dramas, dramaId, ep, url);
      forall k :: 0 <= k < |r| ==> r[k].id == dramas[k].id
  {
  }

  /** With no matching drama, or no matching episode in it, patching back changes nothing. */
  lemma PatchMissingIsNoOp(dramas: seq<Drama>, dramaId: int, ep: int, url: string)
    requires var i := FindDramaIndex(dramas, dramaId);
      i < 0 || FindEpisodeIndex(dramas[i].episodes, ep) < 0
    ensures PatchEpisodeVideo(dramas, dramaId, ep, url) == dramas
  {
  }

  /** Ids are below the counter and distinct. */
  ghost predicate IdsBelow(dramas: seq<Drama>, nextId: int) {
    && (forall k :: 0 <= k < |dramas| ==> dramas[k].id < nextId)
    && (forall k, m :: 0 <= k < m < |dramas| ==> dramas[k].id != dramas[m].id)
  }

  /** The `getSeason` reply. */
  datatype Season = Season(dramaId: int, episodes: seq<Episode>, seasonPrice: real)

  const FallbackEpisodeCount: nat := 12
  const FreeEpisodeCount: nat := 3
  const FallbackEpisodePrice: real := 1.0

  /** Twelve values of `Math.floor(Math.random() * 120)`: whole numbers from 0 to 119. */
  predicate ValidDraws(draws: seq<int>) {
    |draws| == FallbackEpisodeCount && forall i :: 0 <= i < |draws| ==> 0 <= draws[i] < 120
  }

  /** The sample season of 12 episodes; `draws[i]` is the draw for episode `i + 1`, so every duration
      lies between 120 and 239 seconds. */
  function FallbackEpisodes(draws: seq<int>): (eps: seq<Episode>)
    requires ValidDraws(draws)
    ensures |eps| == FallbackEpisodeCount
    ensures forall i :: 0 <= i < |eps| ==> eps[i].ep == i + 1 && eps[i].duration == 120 + draws[i]
    ensures forall i :: 0 <= i < |eps| ==> 120 <= eps[i].duration < 240
    ensures forall i :: 0 <= i < |eps| ==> (eps[i].isFree <==> eps[i].ep <= FreeEpisodeCount)
    ensures forall i :: 0 <= i < |eps| ==> eps[i].price == FallbackEpisodePrice && eps[i].videoUrl.None?
  {
    seq(FallbackEpisodeCount, i requires 0 <= i < FallbackEpisodeCount =>
      Episode(i + 1, "第" + NatToDecimal(i + 1) + "集·剧情发展", 120 + draws[i], i < FreeEpisodeCount, FallbackEpisodePrice, None))
  }

  /** `getSeason(dramaId)` over the catalog: a drama with episodes gives its own season, anything else the sample. */
  function GetSeason(dramas: seq<Drama>, dramaId: int, draws: seq<int>): (s: Season)
    requires ValidDraws(draws)
    ensures s.dramaId == dramaId
    ensures var i := FindDramaIndex(dramas, dramaId);
      if i >= 0 && |dramas[i].episodes| > 0 then
        s.episodes == dramas[i].episodes
        && s.seasonPrice == (if dramas[i].seasonPrice != 0.0 then dramas[i].seasonPrice else DefaultSeasonPrice)
      else
        s.episodes == FallbackEpisodes(draws) && s.seasonPrice == DefaultSeasonPrice
  {
    var i := FindDramaIndex(dramas, dramaId);
    if i >= 0 && |dramas[i].episodes| > 0 then
      Season(dramaId, dramas[i].episodes, if dramas[i].seasonPrice != 0.0 then dramas[i].seasonPrice else DefaultSeasonPrice)
    else
      Season(dramaId, FallbackEpisodes(draws), DefaultSeasonPrice)
  }

  /** The sample season sells exactly its first three episodes for free. */
  lemma FallbackFreePrefix(draws: seq<int>)
    requires ValidDraws(draws)
    ensures var eps := FallbackEpisodes(draws);
      forall i :: 0 <= i < |eps| ==> (eps[i].isFree <==> i < FreeEpisodeCount)
  {
  }

  /** The catalog: the drama list, most recent first, and the id counter. */
  class Catalog {
    var dramas: seq<Drama>
    var nextId: int

    ghost predicate Valid()
      reads this
    {
      IdsBelow(dramas, nextId)
    }

    constructor Seeded()
      ensures Valid() && dramas == SeedDramas && nextId == FirstCreatedId
    {
      dramas := SeedDramas;
      nextId := FirstCreatedId;
    }

    /** `getDramaById(id)`: the first drama with that id, or 'Not found'. */
    function GetDramaById(id: int): (r: Result<Drama>)
      reads this
      ensures r.Ok? <==> exists k :: 0 <= k < |dramas| && dramas[k].id == id
      ensures r.Ok? ==> r.value in dramas && r.value.id == id
      ensures r.Err? ==> r.message == DramaNotFoundMessage
    {
      var i := FindDramaIndex(dramas, id);
      if i < 0 then Err(DramaNotFoundMessage) else Ok(dramas[i])
    }

    /** `createDrama(input)` at clock reading `now`: takes the next id and puts the record in front. */
    method CreateDrama(input: DramaInput, now: string) returns (rec: Drama)
      requires Valid()
      modifies this
      ensures Valid()
      ensures rec == NewDrama(old(nextId), input, now)
      ensures dramas == [rec] + old(dramas) && nextId == old(nextId) + 1
      ensures GetDramaById(rec.id) == Ok(rec)
    {
      var id := nextId;
      nextId := nextId + 1;
      rec := NewDrama(id, input, now);
      dramas := [rec] + dramas;
      assert forall k :: 1 <= k < |dramas| ==> dramas[k] == old(dramas)[k - 1];
    }

    /** The patch-back a finished task performs on the catalog. */
    method PatchEpisode(dramaId: int, ep: int, url: string)
      requires Valid()
      modifies this
      ensures Valid()
      ensures dramas == PatchEpisodeVideo(old(dramas), dramaId, ep, url) && nextId == old(nextId)
    {
      PatchKeepsIds(dramas, dramaId, ep, url);
      var i := FindDramaIndex(dramas, dramaId);
      if i >= 0 {
        var episodes := dramas[i].episodes;
        var j := FindEpisodeIndex(episodes, ep);
        if j >= 0 {
          dramas := dramas[i := dramas[i].(episodes := episodes[j := episodes[j].(videoUrl := Some(url))])];
        }
      }
    }
  }
}
