/**
 * The banner page (scraper.py): each scraped card is sorted by its status
 * text into upcoming, running and ended lists; ended cards are also grouped
 * by their exact progress text, in the order the texts are first seen. The
 * result keeps every upcoming and running card and the first group of ended
 * ones. The main block then gives each kept card a start or an end time.
 */
module PoolCards {
  import opened Wrappers
  import opened Text
  import opened Seqs
  import opened Calendar
  import opened Lifecycles
  import opened PoolTime

  /** What the page shows for one card (the DOM lookups are not modelled). */
  datatype RawPool = RawPool(
    title: string, description: string, imageUrl: string, status: string, tags: seq<string>,
    progress: string)

  /** A card record; `None` is a time the record does not (yet) carry. */
  datatype PoolCard = PoolCard(
    title: string, description: string, imageUrl: string, status: string, tags: seq<string>,
    progress: string, startTime: Option<int>, endTime: Option<int>)

  /** The record the scan loop builds for one raw card: no times yet. */
  function Pool(r: RawPool): (p: PoolCard)
    ensures p.startTime.None? && p.endTime.None?
    ensures p.status == r.status && p.progress == r.progress && p.tags == r.tags
  {
    PoolCard(r.title, r.description, r.imageUrl, r.status, r.tags, r.progress, None, None)
  }

  function Pools(raw: seq<RawPool>): (ps: seq<PoolCard>)
    ensures |ps| == |raw| && forall i :: 0 <= i < |raw| ==> ps[i] == Pool(raw[i])
  {
    seq(|raw|, i requires 0 <= i < |raw| => Pool(raw[i]))
  }

  /**
   * The status test of the scan loop: "将开始" wins over "进行中", which wins
   * over "已结束"; a status holding none of them is dropped.
   */
  function PoolLifecycle(status: string): (l: Option<Lifecycle>)
    ensures l == Some(Upcoming) <==> Contains(status, "将开始")
    ensures l == Some(Ongoing) <==> !Contains(status, "将开始") && Contains(status, "进行中")
    ensures l == Some(Ended)
      <==> !Contains(status, "将开始") && !Contains(status, "进行中") && Contains(status, "已结束")
  {
    if Contains(status, "将开始") then Some(Upcoming)
    else if Contains(status, "进行中") then Some(Ongoing)
    else if Contains(status, "已结束") then Some(Ended)
    else None
  }

  /** The cards whose status sorts them to `l`, in scan order (`None`: dropped). */
  function PoolBucket(cards: seq<PoolCard>, l: Option<Lifecycle>): seq<PoolCard>
  {
    if cards == [] then []
    else
      var last := cards[|cards| - 1];
      PoolBucket(cards[..|cards| - 1], l) + (if PoolLifecycle(last.status) == l then [last] else [])
  }

  /** The keys of `ended_groups`: the progress texts in the order first seen. */
  function ProgressKeys(ended: seq<PoolCard>): seq<string>
  {
    if ended == [] then []
    else
      var keys := ProgressKeys(ended[..|ended| - 1]);
      var k := ended[|ended| - 1].progress;
      if k in keys then keys else keys + [k]
  }

  /** `ended_groups[k]`: the ended cards with progress text `k`, in scan order. */
  function WithProgress(ended: seq<PoolCard>, k: string): seq<PoolCard>
  {
    if ended == [] then []
    else
      var last := ended[|ended| - 1];
      WithProgress(ended[..|ended| - 1], k) + (if last.progress == k then [last] else [])
  }

  /** `recent_ended`: the first group of `ended_groups`, or nothing. */
  function RecentEnded(ended: seq<PoolCard>): seq<PoolCard>
  {
    var keys := ProgressKeys(ended);
    if keys == [] then [] else WithProgress(ended, keys[0])
  }

  /** `upcoming_pools + ongoing_pools + recent_ended` */
  function SelectPools(cards: seq<PoolCard>): seq<PoolCard>
  {
    PoolBucket(cards, Some(Upcoming)) + PoolBucket(cards, Some(Ongoing))
      + RecentEnded(PoolBucket(cards, Some(Ended)))
  }

  /**
   * The scan loop of `get_dynamic_cards`: three lists and the `ended_groups`
   * dictionary, its insertion order kept in `keys`; then the selection.
   */
  method CollectPools(raw: seq<RawPool>) returns (result: seq<PoolCard>)
    ensures result == SelectPools(Pools(raw))
  {
    ghost var cards := Pools(raw);
    var upcoming, ongoing, ended := [], [], [];
    var keys: seq<string> := [];
    var groups: map<string, seq<PoolCard>> := map[];
    for i := 0 to |raw|
      invariant upcoming == PoolBucket(cards[..i], Some(Upcoming))
      invariant ongoing == PoolBucket(cards[..i], Some(Ongoing))
      invariant ended == PoolBucket(cards[..i], Some(Ended))
      invariant GroupsOf(ended, keys, groups)
    {
      var r := raw[i];
      var card := PoolCard(r.title, r.description, r.imageUrl, r.status, r.tags, r.progress, None, None);
      assert card == cards[i];
      PoolBucketStep(cards, i, Some(Upcoming));
      PoolBucketStep(cards, i, Some(Ongoing));
      PoolBucketStep(cards, i, Some(Ended));
      if Contains(r.status, "将开始") {
        upcoming := upcoming + [card];
      } else if Contains(r.status, "进行中") {
        ongoing := ongoing + [card];
      } else if Contains(r.status, "已结束") {
        GroupsAppend(ended, keys, groups, card);
        ended := ended + [card];
        if r.progress !in groups {
          groups := groups[r.progress := []];
          keys := keys + [r.progress];
        }
        groups := groups[r.progress := groups[r.progress] + [card]];
      }
    }
    assert cards[..|raw|] == cards;
    var recent := [];
    if |keys| > 0 {
      recent := groups[keys[0]];
    }
    result := upcoming + ongoing + recent;
  }

  /** One more scanned card extends exactly the bucket its status sorts it to. */
  lemma PoolBucketStep(cards: seq<PoolCard>, i: nat, l: Option<Lifecycle>)
    requires i < |cards|
    ensures PoolBucket(cards[..i + 1], l)
         == PoolBucket(cards[..i], l) + (if PoolLifecycle(cards[i].status) == l then [cards[i]] else [])
  {
    assert cards[..i + 1][..i] == cards[..i];
  }

  /** `keys` and `groups` are the insertion order and the contents of `ended_groups`. */
  ghost predicate GroupsOf(ended: seq<PoolCard>, keys: seq<string>, groups: map<string, seq<PoolCard>>)
  {
    && keys == ProgressKeys(ended)
    && (forall k :: k in groups <==> k in keys)
    && (forall k :: k in groups ==> groups[k] == WithProgress(ended, k))
  }

  /** One more ended card: a new text is added as a key, and the card joins its text's group. */
  lemma GroupsAppend(ended: seq<PoolCard>, keys: seq<string>, groups: map<string, seq<PoolCard>>, c: PoolCard)
    requires GroupsOf(ended, keys, groups)
    ensures var keys' := if c.progress in groups then keys else keys + [c.progress];
      var groups' := if c.progress in groups then groups else groups[c.progress := []];
      GroupsOf(ended + [c], keys', groups'[c.progress := groups'[c.progress] + [c]])
  {
    assert (ended + [c])[..|ended|] == ended;
    forall k
      ensures WithProgress(ended + [c], k) == WithProgress(ended, k) + (if c.progress == k then [c] else [])
    {
      WithProgressStep(ended, c, k);
    }
    if c.progress !in groups {
      ProgressKeysMembership(ended, c.progress);
      NoGroupWithout(ended, c.progress);
    }
  }

  /** How one more ended card changes one group. */
  lemma WithProgressStep(ended: seq<PoolCard>, c: PoolCard, k: string)
    ensures WithProgress(ended + [c], k) == WithProgress(ended, k) + (if c.progress == k then [c] else [])
  {
    assert (ended + [c])[..|ended|] == ended;
  }

  // ------------------------------------------------------------------ buckets

  /** A card is in a bucket exactly when it is a scanned card of that status. */
  lemma {:induction false} PoolBucketMembership(cards: seq<PoolCard>, l: Option<Lifecycle>, c: PoolCard)
    ensures c in PoolBucket(cards, l) <==> c in cards && PoolLifecycle(c.status) == l
    decreases |cards|
  {
    if cards != [] {
      var init := cards[..|cards| - 1];
      PoolBucketMembership(init, l, c);
      assert cards == init + [cards[|cards| - 1]];
    }
  }

  /** Each bucket keeps the scan order. */
  lemma {:induction false} PoolBucketSubsequence(cards: seq<PoolCard>, l: Option<Lifecycle>)
    ensures Subsequence(PoolBucket(cards, l), cards)
    decreases |cards|
  {
    if cards != [] {
      var init := cards[..|cards| - 1];
      var last := cards[|cards| - 1];
      PoolBucketSubsequence(init, l);
      assert init + [last] == cards;
      if PoolLifecycle(last.status) == l {
        assert PoolBucket(cards, l) == PoolBucket(init, l) + [last];
        SubsequenceAppendBoth(PoolBucket(init, l), init, last);
      } else {
        assert PoolBucket(cards, l) == PoolBucket(init, l);
        SubsequenceExtend(PoolBucket(init, l), init, last);
      }
    }
  }

  /**
   * Every scanned card lands in exactly one of the three lists or is dropped:
   * the four buckets together are as long as the scan.
   */
  lemma {:induction false} PoolBucketPartition(cards: seq<PoolCard>)
    ensures |PoolBucket(cards, Some(Upcoming))| + |PoolBucket(cards, Some(Ongoing))|
          + |PoolBucket(cards, Some(Ended))| + |PoolBucket(cards, None)| == |cards|
    decreases |cards|
  {
    if cards != [] {
      var init := cards[..|cards| - 1];
      PoolBucketPartition(init);
    }
  }

  // ------------------------------------------------------------------- groups

  /** A progress text is a key exactly when some ended card carries it. */
  lemma {:induction false} ProgressKeysMembership(ended: seq<PoolCard>, k: string)
    ensures k in ProgressKeys(ended) <==> exists i :: 0 <= i < |ended| && ended[i].progress == k
    decreases |ended|
  {
    if ended != [] {
      var init := ended[..|ended| - 1];
      ProgressKeysMembership(init, k);
      if exists i :: 0 <= i < |init| && init[i].progress == k {
        var i :| 0 <= i < |init| && init[i].progress == k;
        assert ended[i].progress == k;
      }
      if exists i :: 0 <= i < |ended| && ended[i].progress == k {
        var i :| 0 <= i < |ended| && ended[i].progress == k;
        if i < |init| {
          assert init[i].progress == k;
        }
      }
    }
  }

  /** No key occurs twice, and the first key is the first ended card's text. */
  lemma {:induction false} ProgressKeysShape(ended: seq<PoolCard>)
    ensures Distinct(ProgressKeys(ended))
    ensures ProgressKeys(ended) == [] <==> ended == []
    ensures ended != [] ==> ProgressKeys(ended)[0] == ended[0].progress
    decreases |ended|
  {
    if ended != [] {
      var init := ended[..|ended| - 1];
      ProgressKeysShape(init);
      if init == [] {
        assert ProgressKeys(ended) == [ended[0].progress];
      } else {
        assert init[0] == ended[0];
      }
    }
  }

  /**
   * The keys are in the order their texts are first seen: before any card
   * showing a later key, some card shows each earlier key.
   */
  lemma {:induction false} ProgressKeysFirstSeen(ended: seq<PoolCard>, i: nat, j: nat, p: nat)
    requires i < j < |ProgressKeys(ended)| && p < |ended|
    requires ended[p].progress == ProgressKeys(ended)[j]
    ensures exists q :: 0 <= q < p && ended[q].progress == ProgressKeys(ended)[i]
    decreases |ended|
  {
    var init := ended[..|ended| - 1];
    var c := ended[|ended| - 1];
    var keys := ProgressKeys(init);
    if j < |keys| {
      assert ProgressKeys(ended)[..|keys|] == keys;
      if p < |init| {
        assert init[p] == ended[p];
        ProgressKeysFirstSeen(init, i, j, p);
        var q :| 0 <= q < p && init[q].progress == keys[i];
        assert ended[q] == init[q];
      } else {
        ProgressKeysMembership(init, keys[j]);
        var p' :| 0 <= p' < |init| && init[p'].progress == keys[j];
        ProgressKeysFirstSeen(init, i, j, p');
        var q :| 0 <= q < p' && init[q].progress == keys[i];
        assert ended[q] == init[q];
      }
    } else {
      assert c.progress !in keys && ProgressKeys(ended) == keys + [c.progress];
      ProgressKeysMembership(init, c.progress);
      assert forall q :: 0 <= q < |init| ==> init[q] == ended[q];
      assert p == |init|;
      ProgressKeysMembership(init, keys[i]);
      var q :| 0 <= q < |init| && init[q].progress == keys[i];
      assert ended[q] == init[q];
    }
  }

  /** A card is in the group of `k` exactly when it is an ended card with text `k`. */
  lemma {:induction false} WithProgressMembership(ended: seq<PoolCard>, k: string, c: PoolCard)
    ensures c in WithProgress(ended, k) <==> c in ended && c.progress == k
    decreases |ended|
  {
    if ended != [] {
      var init := ended[..|ended| - 1];
      WithProgressMembership(init, k, c);
      assert ended == init + [ended[|ended| - 1]];
    }
  }

  /** Each group keeps the scan order. */
  lemma {:induction false} WithProgressSubsequence(ended: seq<PoolCard>, k: string)
    ensures Subsequence(WithProgress(ended, k), ended)
    decreases |ended|
  {
    if ended != [] {
      var init := ended[..|ended| - 1];
      var last := ended[|ended| - 1];
      WithProgressSubsequence(init, k);
      assert ended == init + [last];
      if last.progress == k {
        var g := WithProgress(ended, k);
        assert g[..|g| - 1] == WithProgress(init, k);
      } else {
        assert WithProgress(ended, k) == WithProgress(init, k);
        SubsequenceExtend(WithProgress(init, k), init, last);
      }
    }
  }

  /** The groups of `keys`, one after the other. */
  function Regroup(ended: seq<PoolCard>, keys: seq<string>): seq<PoolCard>
  {
    if keys == [] then [] else Regroup(ended, keys[..|keys| - 1]) + WithProgress(ended, keys[|keys| - 1])
  }

  /** One more ended card joins exactly the group of its own text. */
  lemma RegroupLast(ended: seq<PoolCard>, keys: seq<string>)
    requires keys != []
    ensures multiset(Regroup(ended, keys))
         == multiset(Regroup(ended, keys[..|keys| - 1])) + multiset(WithProgress(ended, keys[|keys| - 1]))
  {
  }

  /** The last key of a distinct list is not among the others. */
  lemma LastKey(keys: seq<string>, x: string)
    requires keys != [] && Distinct(keys)
    ensures Distinct(keys[..|keys| - 1])
    ensures x in keys <==> x in keys[..|keys| - 1] || x == keys[|keys| - 1]
    ensures !(x in keys[..|keys| - 1] && x == keys[|keys| - 1])
  {
    assert keys == keys[..|keys| - 1] + [keys[|keys| - 1]];
  }

  /** The group of `k` gains `c` exactly when `c` carries `k`. */
  lemma WithProgressStepCount(ended: seq<PoolCard>, c: PoolCard, k: string)
    ensures multiset(WithProgress(ended + [c], k))
         == multiset(WithProgress(ended, k)) + (if c.progress == k then multiset{c} else multiset{})
  {
    WithProgressStep(ended, c, k);
  }

  lemma {:induction false} RegroupStep(ended: seq<PoolCard>, c: PoolCard, keys: seq<string>)
    requires Distinct(keys)
    ensures multiset(Regroup(ended + [c], keys))
         == multiset(Regroup(ended, keys)) + (if c.progress in keys then multiset{c} else multiset{})
    decreases |keys|
  {
    if keys != [] {
      var init := keys[..|keys| - 1];
      var k := keys[|keys| - 1];
      LastKey(keys, c.progress);
      RegroupStep(ended, c, init);
      WithProgressStepCount(ended, c, k);
      RegroupLast(ended + [c], keys);
      RegroupLast(ended, keys);
    }
  }

  /** The groups together hold every ended card exactly once. */
  lemma {:induction false} GroupsPartition(ended: seq<PoolCard>)
    ensures multiset(Regroup(ended, ProgressKeys(ended))) == multiset(ended)
    decreases |ended|
  {
    if ended != [] {
      var init := ended[..|ended| - 1];
      var c := ended[|ended| - 1];
      var keys := ProgressKeys(init);
      assert ended == init + [c];
      GroupsPartition(init);
      ProgressKeysShape(init);
      RegroupStep(init, c, keys);
      if c.progress !in keys {
        ProgressKeysMembership(init, c.progress);
        NoGroupWithout(init, c.progress);
        WithProgressStep(init, c, c.progress);
        assert (keys + [c.progress])[..|keys|] == keys;
      }
    }
  }

  /** A text no ended card carries has an empty group. */
  lemma {:induction false} NoGroupWithout(ended: seq<PoolCard>, k: string)
    requires forall i :: 0 <= i < |ended| ==> ended[i].progress != k
    ensures WithProgress(ended, k) == []
    decreases |ended|
  {
    if ended != [] {
      NoGroupWithout(ended[..|ended| - 1], k);
    }
  }

  // --------------------------------------------------------------- retention

  /**
   * The ended cards kept are none exactly when there are none; otherwise all
   * ended cards sharing the first one's progress text, in scan order.
   */
  lemma RecentEndedShape(ended: seq<PoolCard>)
    ensures RecentEnded(ended) == [] <==> ended == []
    ensures ended != [] ==> RecentEnded(ended) == WithProgress(ended, ended[0].progress)
    ensures forall c :: c in RecentEnded(ended) <==> c in ended && c.progress == ended[0].progress
    ensures Subsequence(RecentEnded(ended), ended)
  {
    ProgressKeysShape(ended);
    if ended != [] {
      forall c ensures c in RecentEnded(ended) <==> c in ended && c.progress == ended[0].progress {
        WithProgressMembership(ended, ended[0].progress, c);
      }
      assert ended[0] in RecentEnded(ended);
      WithProgressSubsequence(ended, ended[0].progress);
    }
  }

  /** When every ended card shows the same progress text, all of them are kept. */
  lemma {:induction false} AllSameKept(ended: seq<PoolCard>, k: string)
    requires forall i :: 0 <= i < |ended| ==> ended[i].progress == k
    ensures WithProgress(ended, k) == ended
    decreases |ended|
  {
    if ended != [] {
      AllSameKept(ended[..|ended| - 1], k);
    }
  }

  /** When every ended card shows the first one's progress text, all are kept. */
  lemma OneBatchKeptWhole(ended: seq<PoolCard>)
    requires forall i :: 0 <= i < |ended| ==> ended[i].progress == ended[0].progress
    ensures RecentEnded(ended) == ended
  {
    RecentEndedShape(ended);
    if ended != [] {
      AllSameKept(ended, ended[0].progress);
    }
  }

  /**
   * The selection keeps every upcoming card, then every running card, then
   * the recent ended group, each part in scan order; dropped cards never
   * appear.
   */
  lemma PoolSelection(cards: seq<PoolCard>)
    ensures var r := SelectPools(cards);
      var up, on := PoolBucket(cards, Some(Upcoming)), PoolBucket(cards, Some(Ongoing));
      var recent := RecentEnded(PoolBucket(cards, Some(Ended)));
      && |r| == |up| + |on| + |recent|
      && r[..|up|] == up && r[|up|..|up| + |on|] == on && r[|up| + |on|..] == recent
      && (forall c :: c in cards && PoolLifecycle(c.status) in {Some(Upcoming), Some(Ongoing)} ==> c in r)
      && (forall c :: c in r ==> c in cards && PoolLifecycle(c.status).Some?)
  {
    var up, on := PoolBucket(cards, Some(Upcoming)), PoolBucket(cards, Some(Ongoing));
    var recent := RecentEnded(PoolBucket(cards, Some(Ended)));
    var r := up + on + recent;
    assert r[..|up|] == up;
    assert r[|up|..|up| + |on|] == on;
    assert r[|up| + |on|..] == recent;
    forall c | c in cards && PoolLifecycle(c.status) in {Some(Upcoming), Some(Ongoing)}
      ensures c in SelectPools(cards)
    {
      PoolSelectionKeeps(cards, c);
    }
    forall c | c in SelectPools(cards)
      ensures c in cards && PoolLifecycle(c.status).Some?
    {
      PoolSelectionFrom(cards, c);
    }
  }

  /** An upcoming or ongoing card is always kept. */
  lemma PoolSelectionKeeps(cards: seq<PoolCard>, c: PoolCard)
    requires c in cards && PoolLifecycle(c.status) in {Some(Upcoming), Some(Ongoing)}
    ensures c in SelectPools(cards)
  {
    PoolBucketMembership(cards, Some(Upcoming), c);
    PoolBucketMembership(cards, Some(Ongoing), c);
  }

  /** A kept card was scanned and has a status. */
  lemma PoolSelectionFrom(cards: seq<PoolCard>, c: PoolCard)
    requires c in SelectPools(cards)
    ensures c in cards && PoolLifecycle(c.status).Some?
  {
    var ended := PoolBucket(cards, Some(Ended));
    RecentEndedShape(ended);
    PoolBucketMembership(cards, Some(Upcoming), c);
    PoolBucketMembership(cards, Some(Ongoing), c);
    PoolBucketMembership(cards, Some(Ended), c);
  }


  // ------------------------------------------------------------ the main block

  /** The card with the times the main block gives it. */
  function Assigned(p: PoolCard, crawl: int): (q: PoolCard)
    ensures q.(startTime := None, endTime := None) == p.(startTime := None, endTime := None)
  {
    var w := PoolWindow(p.progress, p.status, crawl);
    p.(startTime := w.start, endTime := w.end)
  }

  /**
   * The loop of the main block, updating each kept card in place: both times
   * are cleared, then the offset, when present and non-zero, sets the start
   * of an upcoming card or the end of a running or ended one.
   */
  method AssignTimes(pools: array<PoolCard>, crawl: int)
    modifies pools
    ensures forall i :: 0 <= i < pools.Length ==> pools[i] == Assigned(old(pools[i]), crawl)
  {
    for i := 0 to pools.Length
      invariant forall j :: 0 <= j < i ==> pools[j] == Assigned(old(pools[j]), crawl)
      invariant forall j :: i <= j < pools.Length ==> pools[j] == old(pools[j])
    {
      var p := AssignCard(pools[i], crawl);
      pools[i] := p;
    }
  }

  /** The body of the assignment loop, for one card. */
  method AssignCard(card: PoolCard, crawl: int) returns (p: PoolCard)
    ensures p == Assigned(card, crawl)
  {
    p := card.(startTime := None, endTime := None);
    var delta := ParseTimeDelta(p.progress, p.status);
    if delta.Some? && delta.value != 0 {
      var moved := crawl + delta.value * MinutesPerHour;
      var at := moved - moved % MinutesPerHour;
      if Contains(p.status, "将开始") {
        p := p.(startTime := Some(at));
      } else if Contains(p.status, "进行中") {
        p := p.(endTime := Some(at));
      } else if Contains(p.status, "已结束") {
        p := p.(endTime := Some(at));
      }
    }
  }


  /**
   * One run of scraper.py: the kept cards, in an array the main block then
   * updates, each with the times its offset from the crawl instant gives.
   */
  method PoolRun(raw: seq<RawPool>, crawl: int) returns (pools: array<PoolCard>)
    ensures fresh(pools)
    ensures pools.Length == |SelectPools(Pools(raw))|
    ensures forall i :: 0 <= i < pools.Length ==> pools[i] == Assigned(SelectPools(Pools(raw))[i], crawl)
  {
    var cards := CollectPools(raw);
    pools := new PoolCard[|cards|](i requires 0 <= i < |cards| => cards[i]);
    AssignTimes(pools, crawl);
  }

  /**
   * A kept card's times: an upcoming card gets at most a start after the
   * crawl instant, a running card at most an end after it, and an ended card
   * at most an end an hour or more before it; all on the hour.
   */
  lemma AssignedTimes(p: PoolCard, crawl: int)
    requires PoolLifecycle(p.status).Some?
    ensures var q := Assigned(p, crawl);
      && (PoolLifecycle(p.status) == Some(Upcoming) ==>
            q.endTime.None?
            && (q.startTime.Some? ==> crawl < q.startTime.value && q.startTime.value % MinutesPerHour == 0))
      && (PoolLifecycle(p.status) == Some(Ongoing) ==>
            q.startTime.None?
            && (q.endTime.Some? ==> crawl < q.endTime.value && q.endTime.value % MinutesPerHour == 0))
      && (PoolLifecycle(p.status) == Some(Ended) ==>
            q.startTime.None?
            && (q.endTime.Some? ==> q.endTime.value + MinutesPerHour <= crawl && q.endTime.value % MinutesPerHour == 0))
  {
    PoolWindowCases(p.progress, p.status, crawl);
    PoolWindowAroundCrawl(p.progress, p.status, crawl);
  }
}
