/**
 * The event classifier of activity.py (`get_activity_types`): a fixed table of
 * keyword rules checked against a title. Every rule is checked, each rule that
 * fires contributes its tag once, in table order, and a title that fires no
 * rule gets the single tag "其他" (other).
 */
module Classifier {
  import opened Text
  import opened Seqs

  const RuleCount: nat := 10

  /** The test of rule `i`: which keywords in the title make it fire. */
  predicate RuleFires(i: nat, title: string)
    requires i < RuleCount
  {
    match i
    case 0 => Contains(title, "2倍") || Contains(title, "3倍")
    case 1 => Contains(title, "登入活动")
    case 2 => Contains(title, "制约解除决战")
    case 3 => Contains(title, "[活动]")
    case 4 => Contains(title, "总力战")
    case 5 => Contains(title, "招募100次")
    case 6 => Contains(title, "大决战")
    case 7 => Contains(title, "综合战术考试")
    case 8 => Contains(title, "[迷你活动]")
    case _ => Contains(title, "复刻")
  }

  /** The tag rule `i` appends when it fires. */
  function RuleTag(i: nat): string
    requires i < RuleCount
  {
    match i
    case 0 => "资源翻倍"
    case 1 => "签到"
    case 2 => "制约解除决战"
    case 3 => "活动"
    case 4 => "总力战"
    case 5 => "庆典"
    case 6 => "大决战"
    case 7 => "考试"
    case 8 => "长草活动"
    case _ => "复刻"
  }

  /** The tag of a title that fires no rule. */
  const Other: string := "其他"

  /** Tags of the first `n` rules that fire on `title`, in table order. */
  function FiredTags(title: string, n: nat): seq<string>
    requires n <= RuleCount
  {
    if n == 0 then []
    else FiredTags(title, n - 1) + (if RuleFires(n - 1, title) then [RuleTag(n - 1)] else [])
  }

  /** The specification of the classifier. */
  function ActivityTypes(title: string): seq<string>
  {
    var fired := FiredTags(title, RuleCount);
    if fired == [] then [Other] else fired
  }

  /** Checking rule `n` extends the tags of the rules before it. */
  lemma FiredTagsNext(title: string, n: nat, fires: bool)
    requires n < RuleCount && fires == RuleFires(n, title)
    ensures FiredTags(title, n + 1) == FiredTags(title, n) + (if fires then [RuleTag(n)] else [])
  {
  }

  /**
   * One test of the classifier, `if <test>: types.append(tag)`, for rule `n`:
   * applied to the tags of the rules before it, it gives the tags of the
   * rules up to and including it.
   */
  method ApplyRule(title: string, ghost n: nat, types: seq<string>, fires: bool, tag: string) returns (types': seq<string>)
    requires n < RuleCount && types == FiredTags(title, n)
    requires fires == RuleFires(n, title) && tag == RuleTag(n)
    ensures types' == FiredTags(title, n + 1)
  {
    FiredTagsNext(title, n, fires);
    types' := types;
    if fires {
      types' := types' + [tag];
    }
  }

  /**
   * The classifier as the source runs it: ten independent tests, each
   * appending its tag, then the fallback tag when nothing was appended.
   * The ghost `rule` counts the tests done so far.
   */
  method GetActivityTypes(title: string) returns (types: seq<string>)
    ensures types == ActivityTypes(title)
  {
    types := [];
    ghost var rule := 0;
    types := ApplyRule(title, rule, types, Contains(title, "2倍") || Contains(title, "3倍"), "资源翻倍");
    rule := rule + 1;
    types := ApplyRule(title, rule, types, Contains(title, "登入活动"), "签到");
    rule := rule + 1;
    types := ApplyRule(title, rule, types, Contains(title, "制约解除决战"), "制约解除决战");
    rule := rule + 1;
    types := ApplyRule(title, rule, types, Contains(title, "[活动]"), "活动");
    rule := rule + 1;
    types := ApplyRule(title, rule, types, Contains(title, "总力战"), "总力战");
    rule := rule + 1;
    types := ApplyRule(title, rule, types, Contains(title, "招募100次"), "庆典");
    rule := rule + 1;
    types := ApplyRule(title, rule, types, Contains(title, "大决战"), "大决战");
    rule := rule + 1;
    types := ApplyRule(title, rule, types, Contains(title, "综合战术考试"), "考试");
    rule := rule + 1;
    types := ApplyRule(title, rule, types, Contains(title, "[迷你活动]"), "长草活动");
    rule := rule + 1;
    types := ApplyRule(title, rule, types, Contains(title, "复刻"), "复刻");
    rule := rule + 1;
    assert types == FiredTags(title, RuleCount);
    if types == [] {
      types := types + [Other];
    }
  }

  // ------------------------------------------------------------- properties

  /** The tags of the table, in table order. */
  function TableTags(): seq<string>
  {
    seq(RuleCount, i requires 0 <= i < RuleCount => RuleTag(i))
  }

  /** No rule carries the fallback tag, and no two rules share a tag. */
  lemma TableTagsDistinct()
    ensures Distinct(TableTags())
    ensures Other !in TableTags()
  {
  }

  /** A tag is among the first `n` fired tags exactly when one of the first `n` rules with that tag fires. */
  lemma {:induction false} FiredTagsMembership(title: string, n: nat, t: string)
    requires n <= RuleCount
    ensures t in FiredTags(title, n) <==> exists i :: 0 <= i < n && RuleTag(i) == t && RuleFires(i, title)
  {
    if n > 0 {
      FiredTagsMembership(title, n - 1, t);
    }
  }

  /** The first `n` fired tags keep the order of the table's first `n` tags. */
  lemma {:induction false} FiredTagsInOrder(title: string, n: nat)
    requires n <= RuleCount
    ensures Subsequence(FiredTags(title, n), TableTags()[..n])
  {
    if n > 0 {
      FiredTagsInOrder(title, n - 1);
      var t := TableTags();
      assert t[..n] == t[..n - 1] + [RuleTag(n - 1)];
      assert t[..n][..n - 1] == t[..n - 1];
      if RuleFires(n - 1, title) {
        var f := FiredTags(title, n);
        assert f[..|f| - 1] == FiredTags(title, n - 1);
      } else {
        assert FiredTags(title, n) == FiredTags(title, n - 1);
        SubsequenceExtend(FiredTags(title, n - 1), t[..n - 1], RuleTag(n - 1));
      }
    }
  }

  /**
   * The classifier's result is never empty; it holds the tag of every rule
   * that fires and nothing else, or else the fallback tag alone.
   */
  lemma TagMembership(title: string, t: string)
    ensures |ActivityTypes(title)| >= 1
    ensures t in ActivityTypes(title) <==>
      || (exists i :: 0 <= i < RuleCount && RuleTag(i) == t && RuleFires(i, title))
      || (t == Other && forall i :: 0 <= i < RuleCount ==> !RuleFires(i, title))
  {
    FiredTagsMembership(title, RuleCount, t);
    var fired := FiredTags(title, RuleCount);
    if fired == [] {
      forall i | 0 <= i < RuleCount
        ensures !RuleFires(i, title)
      {
        FiredTagsMembership(title, RuleCount, RuleTag(i));
      }
    } else {
      var f0 := fired[0];
      FiredTagsMembership(title, RuleCount, f0);
    }
  }

  /** No rule appends the fallback tag. */
  lemma OtherNeverFired(title: string)
    ensures Other !in FiredTags(title, RuleCount)
  {
    FiredTagsMembership(title, RuleCount, Other);
  }

  /** The fired tags are distinct and keep the table's order. */
  lemma FiredTagsShape(title: string)
    ensures Distinct(FiredTags(title, RuleCount))
    ensures Subsequence(FiredTags(title, RuleCount), TableTags())
  {
    FiredTagsInOrder(title, RuleCount);
    assert TableTags()[..RuleCount] == TableTags();
    TableTagsDistinct();
    SubsequenceDistinct(FiredTags(title, RuleCount), TableTags());
  }

  /**
   * The fallback tag appears only alone, and exactly when no rule fires;
   * otherwise the result lists the fired tags once each, in table order.
   */
  lemma TagsShape(title: string)
    ensures Other in ActivityTypes(title) <==> ActivityTypes(title) == [Other]
    ensures ActivityTypes(title) == [Other] <==> forall i :: 0 <= i < RuleCount ==> !RuleFires(i, title)
    ensures Distinct(ActivityTypes(title))
    ensures ActivityTypes(title) != [Other] ==> Subsequence(ActivityTypes(title), TableTags())
  {
    OtherNeverFired(title);
    FiredTagsShape(title);
    TagMembership(title, Other);
  }

  /** Which rules fire on the title "[活动]总力战". */
  lemma EventAndTotalWarRules(t: string, i: nat)
    requires t == "[活动]总力战" && i < RuleCount
    ensures RuleFires(i, t) <==> i == 3 || i == 4
  {
    if i == 0 {
      NotContainsWithout(t, "2倍", '2');
      NotContainsWithout(t, "3倍", '3');
    } else if i == 1 {
      NotContainsWithout(t, "登入活动", '登');
    } else if i == 2 {
      NotContainsWithout(t, "制约解除决战", '制');
    } else if i == 3 {
      assert OccursAt(t, "[活动]", 0);
    } else if i == 4 {
      assert OccursAt(t, "总力战", 4);
    } else if i == 5 {
      NotContainsWithout(t, "招募100次", '招');
    } else if i == 6 {
      NotContainsWithout(t, "大决战", '大');
    } else if i == 7 {
      NotContainsWithout(t, "综合战术考试", '综');
    } else if i == 8 {
      NotContainsWithout(t, "[迷你活动]", '迷');
    } else {
      NotContainsWithout(t, "复刻", '复');
    }
  }

  /** Both the event rule and the total-war rule fire on "[活动]总力战", and nothing else does. */
  lemma EventAndTotalWar(t: string)
    requires t == "[活动]总力战"
    ensures ActivityTypes(t) == ["活动", "总力战"]
  {
    forall i | 0 <= i < RuleCount
      ensures RuleFires(i, t) <==> i == 3 || i == 4
    {
      EventAndTotalWarRules(t, i);
    }
    assert FiredTags(t, 1) == [];
    assert FiredTags(t, 2) == [];
    assert FiredTags(t, 3) == [];
    assert FiredTags(t, 4) == ["活动"];
    assert FiredTags(t, 5) == ["活动", "总力战"];
    assert FiredTags(t, 6) == ["活动", "总力战"];
    assert FiredTags(t, 7) == ["活动", "总力战"];
    assert FiredTags(t, 8) == ["活动", "总力战"];
    assert FiredTags(t, 9) == ["活动", "总力战"];
  }
}
