/**
 * The event page (activity.py): each card scraped from the page is tagged,
 * sorted by its status text into ongoing, upcoming and ended lists, and the
 * result keeps every ongoing and upcoming card but only the first five ended
 * ones. The main block then resolves each kept card's progress text into a
 * start and an end on the crawl instant truncated to the hour.
 */
module ActivityCards {
  import opened Wrappers
  import opened Text
  import opened Seqs
  import opened Calendar
  import opened Lifecycles
  import opened Classifier
  import opened ActivityTime

  /** What the page shows for one card (the DOM lookups are not modelled). */
  datatype RawActivity = RawActivity(
    title: string, description: string, imageUrl: string, status: string, progress: string)

  /** The card record built in the scan loop. */
  datatype ActivityCard = ActivityCard(
    title: string, description: string, imageUrl: string, status: string, progress: string,
    tags: seq<string>)

  /** The record the main block writes: no status, two instants in minutes. */
  datatype ProcessedActivity = ProcessedActivity(
    title: string, description: string, imageUrl: string, progress: string, tags: seq<string>,
    startTime: Option<int>, endTime: Option<int>)

  /** How many ended cards are kept. */
  const KeptEnded: nat := 5

  /** The record the scan loop builds for one raw card. */
  function Card(r: RawActivity): (c: ActivityCard)
    ensures c.tags == ActivityTypes(r.title) && c.status == r.status && c.progress == r.progress
  {
    ActivityCard(r.title, r.description, r.imageUrl, r.status, r.progress, ActivityTypes(r.title))
  }

  function Cards(raw: seq<RawActivity>): (cs: seq<ActivityCard>)
    ensures |cs| == |raw| && forall i :: 0 <= i < |raw| ==> cs[i] == Card(raw[i])
  {
    seq(|raw|, i requires 0 <= i < |raw| => Card(raw[i]))
  }

  /**
   * The status test of the scan loop: "进行中" wins over "未开始", which wins
   * over "已结束"; a status holding none of them is dropped.
   */
  function ActivityLifecycle(status: string): (l: Option<Lifecycle>)
    ensures l == Some(Ongoing) <==> Contains(status, "进行中")
    ensures l == Some(Upcoming) <==> !Contains(status, "进行中") && Contains(status, "未开始")
    ensures l == Some(Ended)
      <==> !Contains(status, "进行中") && !Contains(status, "未开始") && Contains(status, "已结束")
  {
    if Contains(status, "进行中") then Some(Ongoing)
    else if Contains(status, "未开始") then Some(Upcoming)
    else if Contains(status, "已结束") then Some(Ended)
    else None
  }

  /** The cards whose status sorts them to `l`, in scan order (`None`: dropped). */
  function Bucket(cards: seq<ActivityCard>, l: Option<Lifecycle>): seq<ActivityCard>
  {
    if cards == [] then []
    else
      var last := cards[|cards| - 1];
      Bucket(cards[..|cards| - 1], l) + (if ActivityLifecycle(last.status) == l then [last] else [])
  }

  /** `s[:n]` */
  function Take<T>(s: seq<T>, n: nat): (r: seq<T>)
    ensures |r| == if n < |s| then n else |s|
    ensures r == s[..|r|]
  {
    if n < |s| then s[..n] else s
  }

  /** `ongoing_cards + upcoming_cards + ended_cards[:5]` */
  function SelectActivities(cards: seq<ActivityCard>): seq<ActivityCard>
  {
    Bucket(cards, Some(Ongoing)) + Bucket(cards, Some(Upcoming)) + Take(Bucket(cards, Some(Ended)), KeptEnded)
  }

  /** The scan loop of `get_dynamic_cards` and its final selection. */
  method CollectActivityCards(raw: seq<RawActivity>) returns (result: seq<ActivityCard>)
    ensures result == SelectActivities(Cards(raw))
  {
    ghost var cards := Cards(raw);
    var ongoing, upcoming, ended := [], [], [];
    for i := 0 to |raw|
      invariant ongoing == Bucket(cards[..i], Some(Ongoing))
      invariant upcoming == Bucket(cards[..i], Some(Upcoming))
      invariant ended == Bucket(cards[..i], Some(Ended))
    {
      var r := raw[i];
      var types := GetActivityTypes(r.title);
      var card := ActivityCard(r.title, r.description, r.imageUrl, r.status, r.progress, types);
      assert card == cards[i];
      BucketStep(cards, i, Some(Ongoing));
      BucketStep(cards, i, Some(Upcoming));
      BucketStep(cards, i, Some(Ended));
      if Contains(r.status, "进行中") {
        ongoing := ongoing + [card];
      } else if Contains(r.status, "未开始") {
        upcoming := upcoming + [card];
      } else if Contains(r.status, "已结束") {
        ended := ended + [card];
      }
    }
    assert cards[..|raw|] == cards;
    result := ongoing + upcoming + (if |ended| > KeptEnded then ended[..KeptEnded] else ended);
  }

  // ------------------------------------------------------------------ buckets

  /** Scanning card `i` appends it to its own bucket and to no other. */
  lemma BucketStep(cards: seq<ActivityCard>, i: nat, l: Option<Lifecycle>)
    requires i < |cards|
    ensures Bucket(cards[..i + 1], l)
         == Bucket(cards[..i], l) + (if ActivityLifecycle(cards[i].status) == l then [cards[i]] else [])
  {
    assert cards[..i + 1][..i] == cards[..i];
  }

  /** A card is in a bucket exactly when it is a scanned card of that status. */
  lemma {:induction false} BucketMembership(cards: seq<ActivityCard>, l: Option<Lifecycle>, c: ActivityCard)
    ensures c in Bucket(cards, l) <==> c in cards && ActivityLifecycle(c.status) == l
    decreases |cards|
  {
    if cards != [] {
      var init := cards[..|cards| - 1];
      BucketMembership(init, l, c);
      assert cards == init + [cards[|cards| - 1]];
    }
  }

  /** Each bucket keeps the scan order. */
  lemma {:induction false} BucketSubsequence(cards: seq<ActivityCard>, l: Option<Lifecycle>)
    ensures Subsequence(Bucket(cards, l), cards)
    decreases |cards|
  {
    if cards != [] {
      var init := cards[..|cards| - 1];
      var last := cards[|cards| - 1];
      BucketSubsequence(init, l);
      assert init + [last] == cards;
      if ActivityLifecycle(last.status) == l {
        assert Bucket(cards, l) == Bucket(init, l) + [last];
        SubsequenceAppendBoth(Bucket(init, l), init, last);
      } else {
        assert Bucket(cards, l) == Bucket(init, l);
        SubsequenceExtend(Bucket(init, l), init, last);
      }
    }
  }

  /**
   * Every scanned card lands in exactly one of the three lists or is dropped:
   * the four buckets together are as long as the scan.
   */
  lemma {:induction false} BucketPartition(cards: seq<ActivityCard>)
    ensures |Bucket(cards, Some(Ongoing))| + |Bucket(cards, Some(Upcoming))|
          + |Bucket(cards, Some(Ended))| + |Bucket(cards, None)| == |cards|
    decreases |cards|
  {
    if cards != [] {
      BucketPartition(cards[..|cards| - 1]);
    }
  }

  // ---------------------------------------------------------------- selection

  /**
   * The selection keeps every ongoing card, then every upcoming card, then the
   * first five ended cards, each part in scan order; dropped cards never
   * appear.
   */
  lemma Selection(cards: seq<ActivityCard>)
    ensures var r := SelectActivities(cards);
      var on, up, ended := Bucket(cards, Some(Ongoing)), Bucket(cards, Some(Upcoming)), Bucket(cards, Some(Ended));
      && |r| == |on| + |up| + (if |ended| < KeptEnded then |ended| else KeptEnded)
      && r[..|on|] == on
      && r[|on|..|on| + |up|] == up
      && r[|on| + |up|..] == ended[..|r| - |on| - |up|]
      && (forall c :: c in cards && ActivityLifecycle(c.status) in {Some(Ongoing), Some(Upcoming)} ==> c in r)
      && (forall c :: c in r ==> c in cards && ActivityLifecycle(c.status).Some?)
  {
    var on, up, ended := Bucket(cards, Some(Ongoing)), Bucket(cards, Some(Upcoming)), Bucket(cards, Some(Ended));
    var kept := Take(ended, KeptEnded);
    var r := on + up + kept;
    assert r[..|on|] == on;
    assert r[|on|..|on| + |up|] == up;
    assert r[|on| + |up|..] == kept;
    forall c | c in cards && ActivityLifecycle(c.status) in {Some(Ongoing), Some(Upcoming)}
      ensures c in SelectActivities(cards)
    {
      SelectionKeeps(cards, c);
    }
    forall c | c in SelectActivities(cards)
      ensures c in cards && ActivityLifecycle(c.status).Some?
    {
      SelectionFrom(cards, c);
    }
  }

  /** An ongoing or upcoming card is always kept. */
  lemma SelectionKeeps(cards: seq<ActivityCard>, c: ActivityCard)
    requires c in cards && ActivityLifecycle(c.status) in {Some(Ongoing), Some(Upcoming)}
    ensures c in SelectActivities(cards)
  {
    BucketMembership(cards, Some(Ongoing), c);
    BucketMembership(cards, Some(Upcoming), c);
  }

  /** A kept card was scanned and has a status. */
  lemma SelectionFrom(cards: seq<ActivityCard>, c: ActivityCard)
    requires c in SelectActivities(cards)
    ensures c in cards && ActivityLifecycle(c.status).Some?
  {
    var on, up, ended := Bucket(cards, Some(Ongoing)), Bucket(cards, Some(Upcoming)), Bucket(cards, Some(Ended));
    BucketMembership(cards, Some(Ongoing), c);
    BucketMembership(cards, Some(Upcoming), c);
    BucketMembership(cards, Some(Ended), c);
    if c !in on && c !in up {
      assert c in Take(ended, KeptEnded);
      assert c in ended;
    }
  }


  // ------------------------------------------------------------ the main block

  /** The record the main block builds for one kept card. */
  function Process(card: ActivityCard, crawl: int): (p: ProcessedActivity)
  {
    var w := ParseTimeRange(card.progress, crawl);
    ProcessedActivity(card.title, card.description, card.imageUrl, card.progress, card.tags, w.start, w.end)
  }

  /**
   * The loop over the kept cards: each record copies the card's fields but
   * its status, and carries the window its progress text resolves to.
   */
  method ProcessActivities(cards: seq<ActivityCard>, crawl: int) returns (out: seq<ProcessedActivity>)
    ensures |out| == |cards|
    ensures forall i :: 0 <= i < |cards| ==>
      && out[i].title == cards[i].title && out[i].description == cards[i].description
      && out[i].imageUrl == cards[i].imageUrl && out[i].progress == cards[i].progress
      && out[i].tags == cards[i].tags
      && Window(out[i].startTime, out[i].endTime) == ParseTimeRange(cards[i].progress, crawl)
  {
    out := [];
    for i := 0 to |cards|
      invariant |out| == i
      invariant forall j :: 0 <= j < i ==> out[j] == Process(cards[j], crawl)
    {
      var w := ParseTimeRange(cards[i].progress, crawl);
      var c := cards[i];
      out := out + [ProcessedActivity(c.title, c.description, c.imageUrl, c.progress, c.tags, w.start, w.end)];
    }
  }

  /**
   * One run of activity.py: the crawl instant `now` (minutes on the UTC+8
   * clock) is truncated to the hour, the page's cards are collected and
   * selected, and each kept card is resolved against the truncated instant.
   */
  method ActivityRun(raw: seq<RawActivity>, now: int) returns (crawl: int, out: seq<ProcessedActivity>)
    ensures crawl == TruncHour(now)
    ensures |out| == |SelectActivities(Cards(raw))|
    ensures forall i :: 0 <= i < |out| ==> out[i] == Process(SelectActivities(Cards(raw))[i], crawl)
  {
    crawl := now - now % MinutesPerHour;
    var cards := CollectActivityCards(raw);
    out := ProcessActivities(cards, crawl);
  }

  /** Every instant a run writes is on the hour. */
  lemma ProcessOnTheHour(card: ActivityCard, crawl: int)
    ensures var p := Process(card, crawl);
      && (p.startTime.Some? ==> p.startTime.value % MinutesPerHour == 0)
      && (p.endTime.Some? ==> p.endTime.value % MinutesPerHour == 0)
      && (p.startTime.Some? ==> p.endTime.Some?)
  {
    WindowShape(card.progress, crawl);
  }

  /** The status texts of the scenario sort as their words say. */
  lemma ScenarioStatus(status: string)
    requires status == "进行中"
    ensures ActivityLifecycle(status) == Some(Ongoing)
  {
    assert OccursAt(status, "进行中", 0);
  }

  /** "还剩下1天0小时" is one day left. */
  lemma OneDayLeft(progress: string, crawl: int)
    requires progress == Remaining + (ShowNat(1) + "天" + ShowNat(0) + "小时" + "")
    ensures ParseTimeRange(progress, crawl) == Window(None, Some(TruncHour(crawl) + MinutesPerDay))
  {
    RemainingRoundTrip(1, 0, "");
    assert SearchRemaining(progress) == Some(Span(1, 0));
    RelativeEnd(progress, crawl);
    assert (1 * 24 + 0) * MinutesPerHour == MinutesPerDay;
  }

  /** A single ongoing card is kept alone. */
  lemma SingleOngoingKept(raw: seq<RawActivity>)
    requires |raw| == 1 && ActivityLifecycle(raw[0].status) == Some(Ongoing)
    ensures SelectActivities(Cards(raw)) == [Card(raw[0])]
  {
    var cards := Cards(raw);
    assert cards[..0] == [];
    assert Bucket(cards, Some(Ongoing)) == [cards[0]];
    assert Bucket(cards, Some(Upcoming)) == [];
    assert Bucket(cards, Some(Ended)) == [];
  }

  /** 2024-01-01 00:00 is on the hour, and 2024-01-02 00:00 is one day after it. */
  lemma NewYearsDay()
    ensures Valid(DateTime(2024, 1, 1, 0, 0)) && Valid(DateTime(2024, 1, 2, 0, 0))
    ensures ToMinutes(DateTime(2024, 1, 2, 0, 0)) == ToMinutes(DateTime(2024, 1, 1, 0, 0)) + MinutesPerDay
    ensures TruncHour(ToMinutes(DateTime(2024, 1, 1, 0, 0))) == ToMinutes(DateTime(2024, 1, 1, 0, 0))
  {
    TruncHourOf(DateTime(2024, 1, 1, 0, 0));
  }

  /** An ongoing "[活动]总力战" card scanned alone is kept alone, tagged "活动" and "总力战". */
  lemma ScenarioKept(raw: seq<RawActivity>)
    requires |raw| == 1 && raw[0].title == "[活动]总力战" && raw[0].status == "进行中"
    ensures SelectActivities(Cards(raw)) == [Card(raw[0])]
    ensures Card(raw[0]).tags == ["活动", "总力战"]
  {
    ScenarioStatus(raw[0].status);
    SingleOngoingKept(raw);
    EventAndTotalWar(raw[0].title);
  }

  /**
   * The worked example: an ongoing "[活动]总力战" card with one day left,
   * crawled on the hour (2024-01-01 00:00, say: see `NewYearsDay`), is kept
   * alone, tagged "活动" and "总力战", with no start and an end one day after
   * the crawl.
   */
  lemma OngoingEventScenario(raw: seq<RawActivity>, now: int)
    requires |raw| == 1 && raw[0].title == "[活动]总力战"
    requires raw[0].status == "进行中" && raw[0].progress == Remaining + (ShowNat(1) + "天" + ShowNat(0) + "小时" + "")
    requires now % MinutesPerHour == 0
    ensures var kept := SelectActivities(Cards(raw));
      && |kept| == 1
      && Process(kept[0], TruncHour(now))
         == ProcessedActivity(raw[0].title, raw[0].description, raw[0].imageUrl, raw[0].progress,
                              ["活动", "总力战"], None, Some(now + MinutesPerDay))
  {
    ScenarioKept(raw);
    var card := Card(raw[0]);
    assert SelectActivities(Cards(raw))[0] == card;
    assert TruncHour(now) == now;
    OneDayLeft(card.progress, now);
    assert Process(card, now).endTime == Some(now + MinutesPerDay);
  }
}
