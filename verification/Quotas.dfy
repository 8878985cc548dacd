/** Usage reports and what they mean for an account: ParseUsageJSON, the decision part of
    FetchAccountQuotas (account_pool.go), and the pause taken after a 429 (session.go). */
module Quotas {
  import opened Results
  import opened Text

  /** Nanoseconds; 0 is Go's zero time, which means "not set". */
  type Time = int

  const SECOND: Time := 1_000_000_000
  const MINUTE: Time := 60 * SECOND
  const HOUR: Time := 60 * MINUTE

  datatype ModelQuota = ModelQuota(fraction: real, resetTime: Time, disabled: bool)

  const NO_QUOTA := ModelQuota(0.0, 0, false)

  datatype Quota = Quota(gemini5h: ModelQuota, geminiWeekly: ModelQuota,
                         claude5h: ModelQuota, claudeWeekly: ModelQuota, fetchedAt: Time)

  const UNFETCHED := Quota(NO_QUOTA, NO_QUOTA, NO_QUOTA, NO_QUOTA, 0)

  // ---- Usage reports ----

  /** resetTime is 0 when the report has none or one that does not parse. */
  datatype Bucket = Bucket(id: string, window: string, fraction: real, resetTime: Time, disabled: bool)

  datatype Group = Group(name: string, buckets: seq<Bucket>)

  datatype Slot = Gemini5h | GeminiWeekly | Claude5h | ClaudeWeekly

  predicate Contains(s: string, sub: string) {
    |sub| <= |s| && (s[..|sub|] == sub || (s != [] && Contains(s[1..], sub)))
  }

  /** The quota window a bucket reports on, if any. */
  function SlotOf(group: string, b: Bucket): Option<Slot> {
    var name := Lower(group);
    if Contains(name, "gemini") then
      if b.window == "5h" || b.id == "gemini-5h" then Some(Gemini5h)
      else if b.window == "weekly" || b.id == "gemini-weekly" then Some(GeminiWeekly)
      else None
    else if Contains(name, "claude") || Contains(name, "gpt") then
      if b.window == "5h" || b.id == "3p-5h" then Some(Claude5h)
      else if b.window == "weekly" || b.id == "3p-weekly" then Some(ClaudeWeekly)
      else None
    else None
  }

  function Reading(b: Bucket): ModelQuota {
    ModelQuota(if b.disabled then 0.0 else b.fraction, b.resetTime, b.disabled)
  }

  /** The last bucket of one group for the slot, or else `earlier`. */
  function LatestInGroup(name: string, buckets: seq<Bucket>, slot: Slot,
                         earlier: Option<ModelQuota>): Option<ModelQuota> {
    if buckets == [] then earlier
    else
      var b := buckets[|buckets| - 1];
      if SlotOf(name, b) == Some(slot) then Some(Reading(b))
      else LatestInGroup(name, buckets[..|buckets| - 1], slot, earlier)
  }

  /** The last bucket of the report for the slot. */
  function Latest(groups: seq<Group>, slot: Slot): Option<ModelQuota> {
    if groups == [] then None
    else
      var g := groups[|groups| - 1];
      LatestInGroup(g.name, g.buckets, slot, Latest(groups[..|groups| - 1], slot))
  }

  function OrZero(q: Option<ModelQuota>): ModelQuota {
    if q.Some? then q.value else NO_QUOTA
  }

  /** A weekly window that is used up switches the 5-hour window off. */
  predicate UsedUp(weekly: ModelQuota) {
    weekly.fraction == 0.0 || weekly.disabled
  }

  function Normal5h(five: ModelQuota, weekly: Option<ModelQuota>): ModelQuota {
    if weekly.Some? && UsedUp(weekly.value)
    then ModelQuota(0.0, if five.resetTime == 0 then weekly.value.resetTime else five.resetTime, true)
    else five
  }

  /** What a report says: the last bucket wins in each slot, and each 5-hour window
      follows its weekly one. */
  function Usage(groups: seq<Group>, now: Time): Quota {
    Quota(Normal5h(OrZero(Latest(groups, Gemini5h)), Latest(groups, GeminiWeekly)),
          OrZero(Latest(groups, GeminiWeekly)),
          Normal5h(OrZero(Latest(groups, Claude5h)), Latest(groups, ClaudeWeekly)),
          OrZero(Latest(groups, ClaudeWeekly)), now)
  }

  // ---- The same, read off the report ----

  predicate OccursAt(s: string, i: nat, sub: string) {
    i + |sub| <= |s| && s[i..i + |sub|] == sub
  }

  lemma {:induction false} ContainsIff(s: string, sub: string)
    ensures Contains(s, sub) <==> exists i: nat :: OccursAt(s, i, sub)
  {
    if Contains(s, sub) {
      var i := Occurrence(s, sub);
    }
    forall i: nat | OccursAt(s, i, sub) ensures Contains(s, sub) {
      OccurrenceCounts(s, i, sub);
    }
  }

  lemma {:induction false} Occurrence(s: string, sub: string) returns (i: nat)
    requires Contains(s, sub)
    ensures OccursAt(s, i, sub)
  {
    if s[..|sub|] == sub {
      i := 0;
    } else {
      i := Occurrence(s[1..], sub);
      assert s[1..][i..i + |sub|] == s[i + 1..i + 1 + |sub|];
      i := i + 1;
    }
  }

  lemma {:induction false} OccurrenceCounts(s: string, i: nat, sub: string)
    requires OccursAt(s, i, sub)
    ensures Contains(s, sub)
  {
    if i > 0 {
      assert s[1..][i - 1..i - 1 + |sub|] == s[i..i + |sub|];
      if s != "" {
        OccurrenceCounts(s[1..], i - 1, sub);
      }
    }
  }

  ghost predicate Names(group: string, model: string) {
    exists i: nat :: OccursAt(Lower(group), i, model)
  }

  /** Which windows a bucket reports on: its group is the model family's, the one named first
      winning, and its window or its id names the window, the 5-hour one winning. */
  ghost predicate ReportsOn(group: string, b: Bucket, slot: Slot) {
    var gemini := Names(group, "gemini");
    var claude := !gemini && (Names(group, "claude") || Names(group, "gpt"));
    match slot
    case Gemini5h => gemini && Short(b, "gemini-5h")
    case GeminiWeekly => gemini && Weekly(b, "gemini-weekly") && !Short(b, "gemini-5h")
    case Claude5h => claude && Short(b, "3p-5h")
    case ClaudeWeekly => claude && Weekly(b, "3p-weekly") && !Short(b, "3p-5h")
  }

  predicate Short(b: Bucket, id: string) {
    b.window == "5h" || b.id == id
  }

  predicate Weekly(b: Bucket, id: string) {
    b.window == "weekly" || b.id == id
  }

  lemma SlotIff(group: string, b: Bucket, slot: Slot)
    ensures SlotOf(group, b) == Some(slot) <==> ReportsOn(group, b, slot)
  {
    ContainsIff(Lower(group), "gemini");
    ContainsIff(Lower(group), "claude");
    ContainsIff(Lower(group), "gpt");
  }

  /** The j-th bucket of group i reports on the slot, and no bucket after it does. */
  ghost predicate LastFor(groups: seq<Group>, slot: Slot, i: nat, j: nat) {
    && i < |groups| && j < |groups[i].buckets| && ReportsOn(groups[i].name, groups[i].buckets[j], slot)
    && NoneAfter(groups, slot, i, j + 1)
  }

  ghost predicate NoneAfter(groups: seq<Group>, slot: Slot, i: nat, j: nat) {
    forall i', j' :: 0 <= i' < |groups| && 0 <= j' < |groups[i'].buckets| && (i' > i || (i' == i && j' >= j)) ==>
      !ReportsOn(groups[i'].name, groups[i'].buckets[j'], slot)
  }

  lemma {:induction false} LastInGroup(name: string, buckets: seq<Bucket>, slot: Slot, earlier: Option<ModelQuota>)
    returns (j: int)
    ensures -1 <= j < |buckets|
    ensures forall k :: j < k < |buckets| ==> !ReportsOn(name, buckets[k], slot)
    ensures j >= 0 ==> ReportsOn(name, buckets[j], slot)
    ensures LatestInGroup(name, buckets, slot, earlier) == if j >= 0 then Some(Reading(buckets[j])) else earlier
  {
    hide ReportsOn;
    j := |buckets| - 1;
    if buckets != [] {
      SlotIff(name, buckets[j], slot);
      if SlotOf(name, buckets[j]) != Some(slot) {
        j := LastInGroup(name, buckets[..j], slot, earlier);
      }
    }
  }

  /** Main result: the reading of a slot is that of the last bucket of the whole report for it,
      and there is none if and only if no bucket reports on it. */
  lemma {:induction false} LatestIs(groups: seq<Group>, slot: Slot) returns (i: nat, j: nat)
    ensures Latest(groups, slot).None? ==> NoneAfter(groups, slot, 0, 0)
    ensures Latest(groups, slot).Some? ==>
      LastFor(groups, slot, i, j) && Latest(groups, slot).value == Reading(groups[i].buckets[j])
    decreases |groups|
  {
    hide ReportsOn;
    i, j := 0, 0;
    if groups != [] {
      var n := |groups| - 1;
      var k := LastInGroup(groups[n].name, groups[n].buckets, slot, Latest(groups[..n], slot));
      if k >= 0 {
        i, j := n, k;
      } else {
        i, j := LatestIs(groups[..n], slot);
      }
    }
  }

  /** What a 5-hour window is taken to be: switched off, until its own reset if it has one and the
      weekly reset otherwise, when the weekly window was reported used up; as reported otherwise. */
  predicate FollowsWeekly(five: ModelQuota, reported: ModelQuota, weekly: Option<ModelQuota>) {
    if weekly.Some? && (weekly.value.disabled || weekly.value.fraction == 0.0) then
      && five.disabled && five.fraction == 0.0
      && (reported.resetTime != 0 ==> five.resetTime == reported.resetTime)
      && (reported.resetTime == 0 ==> five.resetTime == weekly.value.resetTime)
    else five == reported
  }

  lemma UsageFollowsWeekly(groups: seq<Group>, now: Time)
    ensures var q := Usage(groups, now);
      && FollowsWeekly(q.gemini5h, OrZero(Latest(groups, Gemini5h)), Latest(groups, GeminiWeekly))
      && FollowsWeekly(q.claude5h, OrZero(Latest(groups, Claude5h)), Latest(groups, ClaudeWeekly))
      && q.geminiWeekly == OrZero(Latest(groups, GeminiWeekly))
      && q.claudeWeekly == OrZero(Latest(groups, ClaudeWeekly)) && q.fetchedAt == now
  {
  }

  /** A switched-off bucket reads as used up, any other as it is. */
  lemma ReadingIs(b: Bucket)
    ensures Reading(b).disabled == b.disabled && Reading(b).resetTime == b.resetTime
    ensures b.disabled ==> Reading(b).fraction == 0.0
    ensures !b.disabled ==> Reading(b).fraction == b.fraction
  {
  }

  lemma LatestStep(name: string, buckets: seq<Bucket>, j: nat, slot: Slot, earlier: Option<ModelQuota>)
    requires j < |buckets|
    ensures LatestInGroup(name, buckets[..j + 1], slot, earlier) ==
      if SlotOf(name, buckets[j]) == Some(slot) then Some(Reading(buckets[j]))
      else LatestInGroup(name, buckets[..j], slot, earlier)
  {
    assert buckets[..j + 1][..j] == buckets[..j];
  }

  lemma GroupDone(groups: seq<Group>, i: nat, slot: Slot)
    requires i < |groups|
    ensures Latest(groups[..i + 1], slot)
         == LatestInGroup(groups[i].name, groups[i].buckets, slot, Latest(groups[..i], slot))
  {
    assert groups[..i + 1][..i] == groups[..i];
  }

  /** The state of the two loops: the quota so far and the two weekly flags. */
  ghost predicate ReadSoFar(quota: Quota, hasGeminiWeekly: bool, hasClaudeWeekly: bool,
                            latest: Slot -> Option<ModelQuota>) {
    && quota.gemini5h == OrZero(latest(Gemini5h))
    && quota.geminiWeekly == OrZero(latest(GeminiWeekly)) && (hasGeminiWeekly <==> latest(GeminiWeekly).Some?)
    && quota.claude5h == OrZero(latest(Claude5h))
    && quota.claudeWeekly == OrZero(latest(ClaudeWeekly)) && (hasClaudeWeekly <==> latest(ClaudeWeekly).Some?)
  }

  /** ParseUsageJSON after decoding. */
  method ParseUsage(groups: seq<Group>, now: Time) returns (quota: Quota)
    ensures quota == Usage(groups, now)
  {
    quota := UNFETCHED.(fetchedAt := now);
    var hasGeminiWeekly, hasClaudeWeekly := false, false;
    for i := 0 to |groups|
      invariant quota.fetchedAt == now
      invariant ReadSoFar(quota, hasGeminiWeekly, hasClaudeWeekly, s => Latest(groups[..i], s))
    {
      var g := groups[i];
      for j := 0 to |g.buckets|
        invariant quota.fetchedAt == now
        invariant ReadSoFar(quota, hasGeminiWeekly, hasClaudeWeekly,
                            s => LatestInGroup(g.name, g.buckets[..j], s, Latest(groups[..i], s)))
      {
        forall s: Slot {
          LatestStep(g.name, g.buckets, j, s, Latest(groups[..i], s));
        }
        var mq := Reading(g.buckets[j]);
        match SlotOf(g.name, g.buckets[j])
        case Some(Gemini5h) => quota := quota.(gemini5h := mq);
        case Some(GeminiWeekly) => quota, hasGeminiWeekly := quota.(geminiWeekly := mq), true;
        case Some(Claude5h) => quota := quota.(claude5h := mq);
        case Some(ClaudeWeekly) => quota, hasClaudeWeekly := quota.(claudeWeekly := mq), true;
        case None =>
      }
      forall s: Slot {
        GroupDone(groups, i, s);
      }
      assert g.buckets[..|g.buckets|] == g.buckets;
    }
    assert groups[..|groups|] == groups;
    if hasGeminiWeekly && UsedUp(quota.geminiWeekly) {
      quota := quota.(gemini5h := quota.gemini5h.(disabled := true, fraction := 0.0));
      if quota.gemini5h.resetTime == 0 && quota.geminiWeekly.resetTime != 0 {
        quota := quota.(gemini5h := quota.gemini5h.(resetTime := quota.geminiWeekly.resetTime));
      }
    }
    if hasClaudeWeekly && UsedUp(quota.claudeWeekly) {
      quota := quota.(claude5h := quota.claude5h.(disabled := true, fraction := 0.0));
      if quota.claude5h.resetTime == 0 && quota.claudeWeekly.resetTime != 0 {
        quota := quota.(claude5h := quota.claude5h.(resetTime := quota.claudeWeekly.resetTime));
      }
    }
  }

  // ---- What a refresh decides ----

  /** What a refresh does to an account that is not frozen. */
  datatype Verdict = RestUntil(until: Time) | Recover | Keep

  predicate Ahead(t: Time, now: Time) {
    t != 0 && now < t
  }

  function Judge(q: Quota, now: Time): Verdict {
    if !q.gemini5h.disabled && q.gemini5h.fraction == 0.0 && Ahead(q.gemini5h.resetTime, now) then
      RestUntil(q.gemini5h.resetTime)
    else if UsedUp(q.geminiWeekly) && Ahead(q.geminiWeekly.resetTime, now) then
      RestUntil(q.geminiWeekly.resetTime)
    else if q.gemini5h.disabled || q.geminiWeekly.disabled then
      RestUntil(if Ahead(q.geminiWeekly.resetTime, now) then q.geminiWeekly.resetTime else now + HOUR)
    else if q.gemini5h.fraction > 0.05 then Recover
    else Keep
  }

  /** The cooldown asked for after a 429; None when the refresh failed. */
  function PauseAfter429(fetched: Option<Quota>, now: Time): Time {
    if fetched.None? then MINUTE
    else
      var q := fetched.value;
      if !q.gemini5h.disabled && q.gemini5h.fraction == 0.0 && Ahead(q.gemini5h.resetTime, now) then
        q.gemini5h.resetTime - now
      else if UsedUp(q.geminiWeekly) && Ahead(q.geminiWeekly.resetTime, now) then
        q.geminiWeekly.resetTime - now
      else if q.gemini5h.disabled || q.geminiWeekly.disabled then
        if Ahead(q.geminiWeekly.resetTime, now) then q.geminiWeekly.resetTime - now else HOUR
      else if q.gemini5h.fraction > 0.05 then 30 * SECOND
      else MINUTE
  }

  /** The instant MarkCooldown(duration) picks. */
  function RestEnd(duration: Time, now: Time): Time {
    now + if duration <= 0 then MINUTE else duration
  }

  /** Main result: a report whose last Gemini weekly bucket is disabled or at 0 rests the
      account until exactly its reset if that is ahead, whatever 5-hour bucket, earlier or
      later, is reported with it; otherwise the 5-hour window can only rest it an hour. */
  lemma WeeklyDecides(groups: seq<Group>, now: Time)
    requires Latest(groups, GeminiWeekly).Some? && UsedUp(Latest(groups, GeminiWeekly).value)
    ensures var reset := Latest(groups, GeminiWeekly).value.resetTime;
      Judge(Usage(groups, now), now) == RestUntil(if now < reset && reset != 0 then reset else now + 3_600_000_000_000)
  {
    assert Usage(groups, now).gemini5h.disabled;
  }

  /** Every rest a refresh orders ends in the future, and a 429 handled at the same instant
      picks the same end; a quota that recovers is rested half a minute only. */
  lemma PauseAgrees(q: Quota, now: Time)
    ensures Judge(q, now).RestUntil? ==>
      Judge(q, now).until > now && RestEnd(PauseAfter429(Some(q), now), now) == Judge(q, now).until
    ensures Judge(q, now).Recover? ==> RestEnd(PauseAfter429(Some(q), now), now) == now + 30_000_000_000
    ensures Judge(q, now).Keep? ==> RestEnd(PauseAfter429(Some(q), now), now) == now + 60_000_000_000
  {
  }

  /** A refresh ends a cooldown if and only if neither window is off, more than a twentieth of the
      5-hour window is left, and no used-up weekly window has a reset ahead. */
  lemma RecoversIff(q: Quota, now: Time)
    ensures Judge(q, now) == Recover <==>
      && !q.gemini5h.disabled && !q.geminiWeekly.disabled && q.gemini5h.fraction > 0.05
      && !(q.geminiWeekly.fraction == 0.0 && q.geminiWeekly.resetTime > now && q.geminiWeekly.resetTime != 0)
  {
  }

  /** A weekly window with quota left never hides an exhausted 5-hour window. */
  lemma FiveHourDecides(groups: seq<Group>, now: Time)
    requires Latest(groups, Gemini5h).Some? && Latest(groups, Gemini5h).value.fraction == 0.0
    requires !Latest(groups, Gemini5h).value.disabled && Ahead(Latest(groups, Gemini5h).value.resetTime, now)
    requires Latest(groups, GeminiWeekly).Some? ==> !UsedUp(Latest(groups, GeminiWeekly).value)
    ensures Judge(Usage(groups, now), now) == RestUntil(Latest(groups, Gemini5h).value.resetTime)
  {
    assert Usage(groups, now).gemini5h == Latest(groups, Gemini5h).value;
  }
}
