/** The deterministic helpers of the scoring service (backend/app/services.py):
    the matching/missing partition of a role's required skills, learning-time
    estimates, the fit-reason tiers, keyword-based skill detection and the
    chart builders. The weighted fit percentage itself is floating-point
    arithmetic and enters as a parameter. */
module Scoring {
  import opened Base
  import opened Seqs
  import opened Sorting
  import opened Text
  import opened Models

  /** The user's level for a skill; a skill the user never listed counts as 0. */
  function LevelOf(userSkills: map<string, Level>, name: string): Level {
    if name in userSkills then userSkills[name] else 0
  }

  /** The 70% matching threshold `user >= required * 0.7`, stated without
      fractions; for levels in 0..10 the two comparisons agree. */
  predicate Meets(user: int, required: int) {
    10 * user >= 7 * required
  }

  /** Weeks to close a skill gap: two per missing level, at least two. */
  function EstimateWeeks(required: int, current: int): (w: int)
    ensures w >= 2 && w % 2 == 0
    ensures current >= required - 1 ==> w == 2
    ensures current < required - 1 ==> w == 2 * (required - current)
  {
    var gap := if required - current > 0 then required - current else 0;
    if gap * 2 > 2 then gap * 2 else 2
  }

  /** A harder target never takes fewer weeks, a higher current level never
      takes more. */
  lemma WeeksMonotone(r1: int, c1: int, r2: int, c2: int)
    requires r1 <= r2 && c1 >= c2
    ensures EstimateWeeks(r1, c1) <= EstimateWeeks(r2, c2)
  {
  }

  function FitOf(req: RequiredSkill, userSkills: map<string, Level>): SkillFit {
    SkillFit(req.skill, LevelOf(userSkills, req.skill), req.requiredLevel, req.weight)
  }

  /** Every required skill scored against the user, in order. */
  function Fits(required: seq<RequiredSkill>, userSkills: map<string, Level>): (r: seq<SkillFit>)
    ensures |r| == |required| && forall i :: 0 <= i < |r| ==> r[i] == FitOf(required[i], userSkills)
  {
    seq(|required|, i requires 0 <= i < |required| => FitOf(required[i], userSkills))
  }

  function GapOf(f: SkillFit): Gap {
    Gap(f, EstimateWeeks(f.requiredLevel, f.userLevel))
  }

  function GapFits(gaps: seq<Gap>): (r: seq<SkillFit>)
    ensures |r| == |gaps| && forall i :: 0 <= i < |r| ==> r[i] == gaps[i].fit
  {
    seq(|gaps|, i requires 0 <= i < |gaps| => gaps[i].fit)
  }

  /** The loop over `role.required_skills`: each required skill goes to
      exactly one of matching (threshold met) or missing (with its learning
      estimate), and both lists follow the order of the required skills. */
  function Partition(required: seq<RequiredSkill>, userSkills: map<string, Level>): (r: (seq<SkillFit>, seq<Gap>))
    ensures |r.0| + |r.1| == |required|
    ensures forall f :: f in r.0 ==> Meets(f.userLevel, f.requiredLevel)
    ensures forall g :: g in r.1 ==> !Meets(g.fit.userLevel, g.fit.requiredLevel) && g == GapOf(g.fit)
    ensures forall i :: 0 <= i < |required| ==> var f := FitOf(required[i], userSkills);
      (Meets(f.userLevel, f.requiredLevel) ==> f in r.0) && (!Meets(f.userLevel, f.requiredLevel) ==> GapOf(f) in r.1)
    decreases |required|
  {
    if |required| == 0 then ([], [])
    else
      var rest := Partition(required[1..], userSkills);
      var f := FitOf(required[0], userSkills);
      assert forall i :: 1 <= i < |required| ==> required[i] == required[1..][i - 1];
      if Meets(f.userLevel, f.requiredLevel) then ([f] + rest.0, rest.1)
      else (rest.0, [GapOf(f)] + rest.1)
  }

  /** Both halves of the partition keep the order of the required skills. */
  lemma {:induction false} PartitionKeepsOrder(required: seq<RequiredSkill>, userSkills: map<string, Level>)
    ensures var p := Partition(required, userSkills); var all := Fits(required, userSkills);
      IsSubsequence(p.0, all) && IsSubsequence(GapFits(p.1), all)
    decreases |required|
  {
    if |required| > 0 {
      PartitionKeepsOrder(required[1..], userSkills);
      var rest := Partition(required[1..], userSkills);
      var all := Fits(required, userSkills);
      assert all[1..] == Fits(required[1..], userSkills);
      var f := FitOf(required[0], userSkills);
      if Meets(f.userLevel, f.requiredLevel) {
        assert ([f] + rest.0)[1..] == rest.0;
        DropHead(GapFits(rest.1), all);
      } else {
        DropHead(rest.0, all);
        assert GapFits([GapOf(f)] + rest.1) == [f] + GapFits(rest.1);
        assert ([f] + GapFits(rest.1))[1..] == GapFits(rest.1);
      }
    }
  }

  datatype Tier = Excellent | Good | Moderate | Limited

  /** The reason tiers: at least 80, at least 60, at least 40, below. */
  function TierOf(fit: real): (t: Tier)
    ensures t == Excellent <==> fit >= 80.0
    ensures t == Good <==> 60.0 <= fit < 80.0
    ensures t == Moderate <==> 40.0 <= fit < 60.0
    ensures t == Limited <==> fit < 40.0
  {
    if fit >= 80.0 then Excellent
    else if fit >= 60.0 then Good
    else if fit >= 40.0 then Moderate
    else Limited
  }

  function Rank(t: Tier): nat {
    match t
    case Limited => 0
    case Moderate => 1
    case Good => 2
    case Excellent => 3
  }

  /** A higher fit never earns a lower tier. */
  lemma TierMonotone(a: real, b: real)
    requires a <= b
    ensures Rank(TierOf(a)) <= Rank(TierOf(b))
  {
  }

  function TierOpening(t: Tier): string {
    match t
    case Excellent => "Excellent fit for "
    case Good => "Good potential for "
    case Moderate => "Moderate fit for "
    case Limited => "Limited fit for "
  }

  function TierClosing(t: Tier): string {
    match t
    case Excellent => "! You have strong alignment with most required skills."
    case Good => ". You have many required skills but need development in some areas."
    case Moderate => ". You have some relevant skills but significant development needed."
    case Limited => ". Consider developing core skills or exploring alternative roles."
  }

  /** `generate_fit_reason`: the tier's sentence with the role title in it.
      What the sentence determines is stated by `ReasonDecidesTierAndTitle`,
      `DifferentTiersDifferentReasons` and `ReasonNamesRole`. */
  function FitReason(title: string, fit: real): (r: string)
    ensures var t := TierOf(fit); r == TierOpening(t) + title + TierClosing(t)
  {
    var t := TierOf(fit);
    TierOpening(t) + title + TierClosing(t)
  }

  /** The first letter of each tier's opening. */
  function Initial(t: Tier): char {
    match t
    case Excellent => 'E'
    case Good => 'G'
    case Moderate => 'M'
    case Limited => 'L'
  }

  /** Every sentence of a tier starts with that tier's initial. */
  lemma SentenceInitial(t: Tier, a: string, c: string)
    ensures |TierOpening(t) + a + c| > 0
    ensures (TierOpening(t) + a + c)[0] == Initial(t)
  {
    FrameHead(TierOpening(t), a, c);
  }

  lemma FrameHead(o: string, a: string, c: string)
    requires |o| > 0
    ensures (o + a + c)[0] == o[0]
  {
  }

  /** Text between a fixed opening and a fixed closing is recovered from
      the whole. */
  lemma SameFrameSameMiddle(o: string, a: string, b: string, c: string)
    requires o + a + c == o + b + c
    ensures a == b
  {
    assert a == (o + a + c)[|o|..|o| + |a|];
    assert b == (o + b + c)[|o|..|o| + |b|];
  }

  /** Fits in different tiers give different reasons, whatever the titles. */
  lemma DifferentTiersDifferentReasons(a: string, f: real, b: string, g: real)
    requires TierOf(f) != TierOf(g)
    ensures FitReason(a, f) != FitReason(b, g)
  {
    SentencesDiffer(TierOf(f), a, TierClosing(TierOf(f)), TierOf(g), b, TierClosing(TierOf(g)));
  }

  lemma SentencesDiffer(t: Tier, a: string, c: string, u: Tier, b: string, d: string)
    requires t != u
    ensures TierOpening(t) + a + c != TierOpening(u) + b + d
  {
    SentenceInitial(t, a, c);
    SentenceInitial(u, b, d);
  }

  /** The reason determines the tier and the role title: two different
      titles, or two fits in different tiers, never give the same sentence. */
  lemma ReasonDecidesTierAndTitle(a: string, f: real, b: string, g: real)
    requires FitReason(a, f) == FitReason(b, g)
    ensures TierOf(f) == TierOf(g) && a == b
  {
    if TierOf(f) != TierOf(g) {
      DifferentTiersDifferentReasons(a, f, b, g);
      assert false;
    }
    var t := TierOf(f);
    SameFrameSameMiddle(TierOpening(t), a, b, TierClosing(t));
  }

  /** The reason names the role, right after the tier's opening words. */
  lemma ReasonNamesRole(title: string, fit: real)
    ensures Contains(FitReason(title, fit), title)
    ensures IsPrefix(TierOpening(TierOf(fit)), FitReason(title, fit))
  {
    var t := TierOf(fit);
    var r := FitReason(title, fit);
    var o := TierOpening(t);
    assert r[|o|..|o| + |title|] == title;
    assert OccursAt(r, title, |o|);
    ContainsIff(r, title);
    assert r[..|o|] == o;
  }

  /** Index of the first variant that occurs, case-insensitively, in the
      lower-cased text, searching from position `from`. */
  function FirstOccurring(variants: seq<string>, textLower: string, from: nat): (r: Option<nat>)
    ensures r.Some? ==> from <= r.value < |variants| && Contains(textLower, Lower(variants[r.value]))
    ensures r.Some? ==> forall j :: from <= j < r.value ==> !Contains(textLower, Lower(variants[j]))
    ensures r.None? ==> forall j :: from <= j < |variants| ==> !Contains(textLower, Lower(variants[j]))
    decreases |variants| - from
  {
    if from >= |variants| then None
    else if Contains(textLower, Lower(variants[from])) then Some(from)
    else FirstOccurring(variants, textLower, from + 1)
  }

  /** What one taxonomy entry contributes to keyword detection: its first
      variant found in the text, at level 5 and confidence 0.7. */
  function EntryYield(e: TaxonomyEntry, textLower: string): (r: Option<DetectedSkill>)
    ensures r.Some? ==> (r.value.canonical == e.canonical && r.value.raw in e.variants
                         && r.value.inferredLevel == 5 && r.value.confidence == 0.7
                         && Contains(textLower, Lower(r.value.raw)))
    ensures r.None? <==> forall v :: v in e.variants ==> !Contains(textLower, Lower(v))
  {
    match FirstOccurring(e.variants, textLower, 0)
    case Some(i) => Some(DetectedSkill(e.variants[i], e.canonical, 0.7, 5))
    case None => None
  }

  function Detect(taxonomy: seq<TaxonomyEntry>, textLower: string): (r: seq<DetectedSkill>)
    ensures |r| <= |taxonomy|
    ensures forall d :: d in r ==> exists e :: e in taxonomy && EntryYield(e, textLower) == Some(d)
    ensures forall e :: e in taxonomy && EntryYield(e, textLower).Some? ==> EntryYield(e, textLower).value in r
    decreases |taxonomy|
  {
    if |taxonomy| == 0 then []
    else
      var rest := Detect(taxonomy[1..], textLower);
      assert forall e :: e in taxonomy[1..] ==> e in taxonomy;
      assert forall e :: e in taxonomy ==> e == taxonomy[0] || e in taxonomy[1..];
      match EntryYield(taxonomy[0], textLower)
      case Some(d) => [d] + rest
      case None => rest
  }

  datatype FallbackResult = FallbackResult(skills: seq<DetectedSkill>, normalizationMap: map<string, string>, suggested: seq<string>)

  function RawPairs(ds: seq<DetectedSkill>): (r: seq<(string, string)>)
    ensures |r| == |ds| && forall i :: 0 <= i < |r| ==> r[i] == (ds[i].raw, ds[i].canonical)
  {
    seq(|ds|, i requires 0 <= i < |ds| => (ds[i].raw, ds[i].canonical))
  }

  /** `fallback_skill_detection`: keyword detection over the taxonomy in its
      order, with a map from each detected variant to its canonical. */
  function FallbackDetection(text: string, taxonomy: seq<TaxonomyEntry>): (r: FallbackResult)
    ensures r.skills == Detect(taxonomy, Lower(text)) && r.suggested == []
    ensures forall d :: d in r.skills ==> d.raw in r.normalizationMap
    ensures Distinct(Raws(r.skills)) ==> forall d :: d in r.skills ==> r.normalizationMap[d.raw] == d.canonical
    ensures forall k :: k in r.normalizationMap ==> exists d :: d in r.skills && d.raw == k
  {
    var skills := Detect(taxonomy, Lower(text));
    var m := LastWins(RawPairs(skills));
    MapCoversDetected(skills);
    MapKeysDetected(skills);
    MapOfDistinctRaws(skills);
    FallbackResult(skills, m, [])
  }

  lemma MapCoversDetected(skills: seq<DetectedSkill>)
    ensures forall d :: d in skills ==> d.raw in LastWins(RawPairs(skills))
  {
    var pairs := RawPairs(skills);
    forall d | d in skills ensures d.raw in LastWins(pairs) {
      var i :| 0 <= i < |skills| && skills[i] == d;
      assert pairs[i].0 == d.raw;
    }
  }

  lemma MapKeysDetected(skills: seq<DetectedSkill>)
    ensures forall k :: k in LastWins(RawPairs(skills)) ==> exists d :: d in skills && d.raw == k
  {
    var pairs := RawPairs(skills);
    forall k | k in LastWins(pairs) ensures exists d :: d in skills && d.raw == k {
      var i :| 0 <= i < |pairs| && pairs[i].0 == k;
      assert skills[i] in skills;
    }
  }

  lemma MapOfDistinctRaws(skills: seq<DetectedSkill>)
    ensures Distinct(Raws(skills)) ==> forall d :: d in skills ==> LastWins(RawPairs(skills))[d.raw] == d.canonical
  {
    var pairs := RawPairs(skills);
    if Distinct(Raws(skills)) {
      forall d | d in skills ensures d.raw in LastWins(pairs) && LastWins(pairs)[d.raw] == d.canonical {
        var i :| 0 <= i < |skills| && skills[i] == d;
        forall j | i < j < |pairs| ensures pairs[j].0 != pairs[i].0 {
          assert Raws(skills)[i] != Raws(skills)[j];
        }
      }
    }
  }

  function Raws(ds: seq<DetectedSkill>): (r: seq<string>)
    ensures |r| == |ds| && forall i :: 0 <= i < |r| ==> r[i] == ds[i].raw
  {
    seq(|ds|, i requires 0 <= i < |ds| => ds[i].raw)
  }

  function EntryNames(taxonomy: seq<TaxonomyEntry>): (r: seq<string>)
    ensures |r| == |taxonomy| && forall i :: 0 <= i < |r| ==> r[i] == taxonomy[i].canonical
  {
    seq(|taxonomy|, i requires 0 <= i < |taxonomy| => taxonomy[i].canonical)
  }

  /** Detected skills follow the taxonomy's order, so with distinct
      canonicals (as in a JSON object) each canonical is detected at most
      once. */
  lemma DetectFollowsTaxonomy(taxonomy: seq<TaxonomyEntry>, textLower: string)
    ensures IsSubsequence(CanonicalNames(Detect(taxonomy, textLower)), EntryNames(taxonomy))
    ensures Distinct(EntryNames(taxonomy)) ==> Distinct(CanonicalNames(Detect(taxonomy, textLower)))
  {
    DetectedCanonicalsInOrder(taxonomy, textLower);
    if Distinct(EntryNames(taxonomy)) {
      SubsequenceDistinct(CanonicalNames(Detect(taxonomy, textLower)), EntryNames(taxonomy));
    }
  }

  lemma {:induction false} DetectedCanonicalsInOrder(taxonomy: seq<TaxonomyEntry>, textLower: string)
    ensures IsSubsequence(CanonicalNames(Detect(taxonomy, textLower)), EntryNames(taxonomy))
    decreases |taxonomy|
  {
    if |taxonomy| > 0 {
      DetectedCanonicalsInOrder(taxonomy[1..], textLower);
      var r := Detect(taxonomy, textLower);
      var rest := Detect(taxonomy[1..], textLower);
      var names := EntryNames(taxonomy);
      assert names[1..] == EntryNames(taxonomy[1..]);
      match EntryYield(taxonomy[0], textLower)
      case Some(d) =>
        assert r == [d] + rest;
        assert CanonicalNames(r) == [d.canonical] + CanonicalNames(rest);
        assert ([d.canonical] + CanonicalNames(rest))[1..] == CanonicalNames(rest);
      case None =>
        assert r == rest;
        DropHead(CanonicalNames(rest), names);
    }
  }

  function WeightOf(f: SkillFit): real {
    f.weight
  }

  /** How many skills the radar chart shows at most. */
  const RadarSize: nat := 8

  /** The radar's skills: matching then missing, stably sorted by weight
      (heaviest first), cut to the first eight. */
  function RadarPicks(matching: seq<SkillFit>, missing: seq<Gap>): (r: seq<SkillFit>)
    ensures var n := |matching| + |missing|; |r| == if n < RadarSize then n else RadarSize
    ensures SortedDesc(r, WeightOf)
    ensures multiset(r) <= multiset(matching + GapFits(missing))
    ensures forall f :: f in r ==> f in matching + GapFits(missing)
    ensures forall y, x :: y in r && x in matching + GapFits(missing) && multiset(r)[x] < multiset(matching + GapFits(missing))[x] ==> WeightOf(y) >= WeightOf(x)
    ensures forall y, x :: y in r && x in matching + GapFits(missing) && x !in r ==> WeightOf(y) >= WeightOf(x)
  {
    var all := matching + GapFits(missing);
    var r := Top(all, RadarSize, WeightOf);
    assert multiset(r) <= multiset(all);
    r
  }

  /** Skills of equal weight keep the order of matching-then-missing on the
      radar. */
  lemma RadarTiesKeepOrder(matching: seq<SkillFit>, missing: seq<Gap>, w: real)
    ensures IsPrefix(KeyClass(RadarPicks(matching, missing), WeightOf, w), KeyClass(matching + GapFits(missing), WeightOf, w))
  {
    TopKeepsTies(matching + GapFits(missing), RadarSize, WeightOf, w);
  }

  /** `generate_radar_data`: three index-aligned arrays over the radar's
      skills; the user's level is looked up again by name (0 when unknown). */
  function BuildRadar(matching: seq<SkillFit>, missing: seq<Gap>, userSkills: map<string, Level>): (r: RadarData)
    ensures var picks := RadarPicks(matching, missing);
      && |r.skills| == |picks| && |r.userLevels| == |picks| && |r.requiredLevels| == |picks|
      && forall i :: 0 <= i < |picks| ==>
           r.skills[i] == picks[i].skill
           && r.userLevels[i] == LevelOf(userSkills, picks[i].skill)
           && r.requiredLevels[i] == picks[i].requiredLevel
  {
    var picks := RadarPicks(matching, missing);
    RadarData(
      seq(|picks|, i requires 0 <= i < |picks| => picks[i].skill),
      seq(|picks|, i requires 0 <= i < |picks| => LevelOf(userSkills, picks[i].skill) as int),
      seq(|picks|, i requires 0 <= i < |picks| => picks[i].requiredLevel as int))
  }

  /** `generate_donut_data`: one slice per matching skill, in order, valued
      at its weight as a percentage. */
  function BuildDonut(matching: seq<SkillFit>, userSkills: map<string, Level>): (r: seq<DonutEntry>)
    ensures |r| == |matching|
    ensures forall i :: 0 <= i < |r| ==>
      r[i] == DonutEntry(matching[i].skill, matching[i].weight * 100.0, LevelOf(userSkills, matching[i].skill), matching[i].requiredLevel)
  {
    seq(|matching|, i requires 0 <= i < |matching| =>
      DonutEntry(matching[i].skill, matching[i].weight * 100.0, LevelOf(userSkills, matching[i].skill), matching[i].requiredLevel))
  }

  /** Built from a role's partition, the donut shows only skills that meet
      the threshold, so no missing skill gets a slice. */
  lemma DonutShowsOnlyMatching(required: seq<RequiredSkill>, userSkills: map<string, Level>)
    ensures var p := Partition(required, userSkills);
      forall d :: d in BuildDonut(p.0, userSkills) ==> Meets(d.userLevel, d.requiredLevel)
  {
    var p := Partition(required, userSkills);
    var donut := BuildDonut(p.0, userSkills);
    PartitionKeepsOrder(required, userSkills);
    SubsequenceMembers(p.0, Fits(required, userSkills));
    forall d | d in donut ensures Meets(d.userLevel, d.requiredLevel) {
      var i :| 0 <= i < |donut| && donut[i] == d;
      assert p.0[i] in p.0;
      assert p.0[i] in Fits(required, userSkills);
    }
  }

  /** `str` of Python's ZeroDivisionError for integer division. */
  const DivisionByZero := "division by zero"

  /** The reason `safe_calculate_role_fit` reports for a role it could not score. */
  const ErrorReason := "Error calculating fit: " + DivisionByZero

  /** The second letter of each tier's opening. */
  function Second(t: Tier): char {
    match t
    case Excellent => 'x'
    case Good => 'o'
    case Moderate => 'o'
    case Limited => 'i'
  }

  /** Every sentence of a tier has that tier's second letter. */
  lemma SentenceSecond(t: Tier, a: string, c: string)
    ensures |TierOpening(t) + a + c| > 1
    ensures (TierOpening(t) + a + c)[1] == Second(t)
  {
    FrameSecond(TierOpening(t), a, c);
  }

  lemma FrameSecond(o: string, a: string, c: string)
    requires |o| > 1
    ensures (o + a + c)[1] == o[1]
  {
  }

  /** No tier sentence can be mistaken for the error reason. */
  lemma ReasonIsNeverError(title: string, fit: real)
    ensures FitReason(title, fit) != ErrorReason
  {
    SentenceSecond(TierOf(fit), title, TierClosing(TierOf(fit)));
    ErrorSecond();
  }

  lemma ErrorSecond()
    ensures |ErrorReason| > 1 && ErrorReason[1] == 'r'
  {
    FrameSecond("Error calculating fit: ", DivisionByZero, "");
  }

  /** The skill names of a list of fits, in order. */
  function FitNames(fs: seq<SkillFit>): (r: seq<string>)
    ensures |r| == |fs| && forall i :: 0 <= i < |fs| ==> r[i] == fs[i].skill
  {
    seq(|fs|, i requires 0 <= i < |fs| => fs[i].skill)
  }

  lemma FitNamesAppend(a: seq<SkillFit>, b: seq<SkillFit>)
    ensures FitNames(a + b) == FitNames(a) + FitNames(b)
  {
  }

  lemma FitNamesCons(f: SkillFit, fs: seq<SkillFit>)
    ensures FitNames([f] + fs) == [f.skill] + FitNames(fs)
  {
  }

  lemma GapFitsCons(g: Gap, gs: seq<Gap>)
    ensures GapFits([g] + gs) == [g.fit] + GapFits(gs)
  {
  }

  /** The skill names a role requires, in order. */
  function RequiredNames(rs: seq<RequiredSkill>): (r: seq<string>)
    ensures |r| == |rs| && forall i :: 0 <= i < |rs| ==> r[i] == rs[i].skill
  {
    seq(|rs|, i requires 0 <= i < |rs| => rs[i].skill)
  }

  lemma RequiredNamesCons(rs: seq<RequiredSkill>)
    requires |rs| > 0
    ensures RequiredNames(rs) == [rs[0].skill] + RequiredNames(rs[1..])
  {
  }

  /** The partition loses and invents no skill: matching and missing
      together name each required skill exactly as often as the role does. */
  lemma {:induction false} PartitionAccountsForEverySkill(required: seq<RequiredSkill>, userSkills: map<string, Level>)
    ensures var p := Partition(required, userSkills);
      multiset(FitNames(p.0)) + multiset(FitNames(GapFits(p.1))) == multiset(RequiredNames(required))
    decreases |required|
  {
    if |required| > 0 {
      PartitionAccountsForEverySkill(required[1..], userSkills);
      var p := Partition(required, userSkills);
      var rest := Partition(required[1..], userSkills);
      var f := FitOf(required[0], userSkills);
      var m, g := FitNames(rest.0), FitNames(GapFits(rest.1));
      RequiredNamesCons(required);
      if Meets(f.userLevel, f.requiredLevel) {
        assert p == ([f] + rest.0, rest.1);
        FitNamesCons(f, rest.0);
        assert FitNames(p.0) == [f.skill] + m;
      } else {
        assert p == (rest.0, [GapOf(f)] + rest.1);
        GapFitsCons(GapOf(f), rest.1);
        FitNamesCons(f, GapFits(rest.1));
        assert FitNames(GapFits(p.1)) == [f.skill] + g;
      }
    }
  }

  /** The error reason appears exactly for the roles the fit formula
      cannot score. */
  lemma ScoreRoleErrorIff(role: Role, userSkills: map<string, Level>, fit: real)
    ensures ScoreRole(role, userSkills, fit).reason == ErrorReason <==> role.minYearsExperience == -1
  {
    if role.minYearsExperience != -1 {
      ReasonIsNeverError(role.title, fit);
    }
  }

  /** Every role that can be scored lists each of its required skills, as
      matching or missing, exactly once per requirement. */
  lemma ScoreRoleAccountsForSkills(role: Role, userSkills: map<string, Level>, fit: real)
    requires role.minYearsExperience != -1
    ensures var r := ScoreRole(role, userSkills, fit);
      multiset(FitNames(r.matching + GapFits(r.missing))) == multiset(RequiredNames(role.requiredSkills))
  {
    var p := Partition(role.requiredSkills, userSkills);
    PartitionAccountsForEverySkill(role.requiredSkills, userSkills);
    FitNamesAppend(p.0, GapFits(p.1));
  }

  /** `safe_calculate_role_fit` for one role, given the value of the
      floating-point fit formula. A role with `min_years_experience` of -1
      makes the experience term divide by zero; the error is caught and the
      role scores 0 with no skills listed. `ScoreRoleErrorIff` and
      `ScoreRoleAccountsForSkills` state what the result means. */
  function ScoreRole(role: Role, userSkills: map<string, Level>, fit: real): (r: RoleResult)
    ensures r.title == role.title
    ensures role.minYearsExperience == -1 ==>
      r == RoleResult(role.title, 0.0, [], [], ErrorReason)
    ensures role.minYearsExperience != -1 ==>
      (r.matching, r.missing) == Partition(role.requiredSkills, userSkills)
      && r.fitPercentage == fit && r.reason == FitReason(role.title, fit)
  {
    if role.minYearsExperience + 1 == 0 then
      RoleResult(role.title, 0.0, [], [], ErrorReason)
    else
      var p := Partition(role.requiredSkills, userSkills);
      RoleResult(role.title, fit, p.0, p.1, FitReason(role.title, fit))
  }
}
