/** The results page (frontend/src/components/Results.jsx): the role filter,
    the display slices, the donut colours, the radar rows and the role whose
    name heads the donut chart. JavaScript's `undefined` is `None`. */
module ResultsView {
  import opened Base
  import opened Seqs
  import opened Models
  import opened Scoring
  import opened Server

  /** A role as the page reads it. The server's results carry no industry,
      remote flag or minimum experience, so those read as `undefined`. */
  datatype RoleView = RoleView(
    result: RoleResult,
    industry: Option<string>,
    remoteFriendly: Option<bool>,
    minYearsExperience: Option<int>)

  datatype Filters = Filters(industry: string, remote: bool, minExperience: int)

  /** The filter state the page starts with; no control ever changes it. */
  const InitialFilters := Filters("", false, 0)

  /** `role.industry !== filters.industry` */
  predicate IndustryDiffers(role: RoleView, industry: string) {
    role.industry != Some(industry)
  }

  /** Truthiness of `role.remote_friendly`: only `true` counts. */
  predicate RemoteTruthy(role: RoleView) {
    role.remoteFriendly == Some(true)
  }

  /** `minExperience > role.min_years_experience`; against `undefined` the
      comparison is false. */
  predicate AboveMinimum(minExperience: int, role: RoleView) {
    match role.minYearsExperience
    case Some(m) => minExperience > m
    case None => false
  }

  /** The three early returns of the filter callback, in order. */
  predicate Keep(role: RoleView, f: Filters) {
    if f.industry != "" && IndustryDiffers(role, f.industry) then false
    else if f.remote && !RemoteTruthy(role) then false
    else if AboveMinimum(f.minExperience, role) then false
    else true
  }

  /** With every field present the filter is the plain conjunction of the
      three clauses. */
  lemma KeepWhenFieldsPresent(role: RoleView, f: Filters)
    requires role.industry.Some? && role.remoteFriendly.Some? && role.minYearsExperience.Some?
    ensures Keep(role, f) <==>
      (f.industry == "" || role.industry.value == f.industry)
      && (!f.remote || role.remoteFriendly.value)
      && f.minExperience <= role.minYearsExperience.value
  {
  }

  /** `results.roles.filter(...)`: the kept roles, in order, each as often
      as it occurs. */
  function FilterRoles(roles: seq<RoleView>, f: Filters): (r: seq<RoleView>)
    ensures forall x :: x in r <==> x in roles && Keep(x, f)
    ensures forall x :: multiset(r)[x] == if Keep(x, f) then multiset(roles)[x] else 0
    ensures |r| <= |roles|
    decreases |roles|
  {
    if |roles| == 0 then []
    else
      var rest := FilterRoles(roles[1..], f);
      assert roles == [roles[0]] + roles[1..];
      assert multiset(roles) == multiset{roles[0]} + multiset(roles[1..]);
      assert forall x :: x in roles <==> x == roles[0] || x in roles[1..];
      if Keep(roles[0], f) then
        assert multiset([roles[0]] + rest) == multiset{roles[0]} + multiset(rest);
        [roles[0]] + rest
      else rest
  }

  lemma {:induction false} FilterKeepsOrder(roles: seq<RoleView>, f: Filters)
    ensures IsSubsequence(FilterRoles(roles, f), roles)
    decreases |roles|
  {
    if |roles| > 0 {
      FilterKeepsOrder(roles[1..], f);
      var rest := FilterRoles(roles[1..], f);
      if Keep(roles[0], f) {
        assert ([roles[0]] + rest)[1..] == rest;
      } else {
        DropHead(rest, roles);
      }
    }
  }

  predicate NoNegativeMinimum(roles: seq<RoleView>) {
    forall i :: 0 <= i < |roles| ==> roles[i].minYearsExperience.None? || roles[i].minYearsExperience.value >= 0
  }

  /** Under the initial filters every role whose minimum experience is
      absent or non-negative is kept, so the list is unchanged. */
  lemma {:induction false} InitialFiltersKeepAll(roles: seq<RoleView>)
    requires NoNegativeMinimum(roles)
    ensures FilterRoles(roles, InitialFilters) == roles
    decreases |roles|
  {
    if |roles| > 0 {
      assert NoNegativeMinimum(roles[1..]) by {
        forall i | 0 <= i < |roles[1..]| ensures roles[1..][i].minYearsExperience.None? || roles[1..][i].minYearsExperience.value >= 0 {
          assert roles[1..][i] == roles[i + 1];
        }
      }
      InitialFiltersKeepAll(roles[1..]);
      assert Keep(roles[0], InitialFilters);
      assert [roles[0]] + roles[1..] == roles;
    }
  }

  /** A stricter filter keeps no role the looser one dropped. */
  lemma StricterFilterKeepsFewer(role: RoleView, loose: Filters, strict: Filters)
    requires loose.industry == "" || loose.industry == strict.industry
    requires loose.remote ==> strict.remote
    requires loose.minExperience <= strict.minExperience
    ensures Keep(role, strict) ==> Keep(role, loose)
  {
  }

  /** How the page wraps a server result: the filter fields are absent. */
  function FromServer(roles: seq<RoleResult>): (r: seq<RoleView>)
    ensures |r| == |roles|
    ensures forall i :: 0 <= i < |r| ==>
      (r[i].result == roles[i] && r[i].industry.None? && r[i].remoteFriendly.None? && r[i].minYearsExperience.None?)
  {
    seq(|roles|, i requires 0 <= i < |roles| => RoleView(roles[i], None, None, None))
  }

  /** On server results the filter can only keep everything or nothing: an
      industry choice or the remote switch drops every role, and the
      experience threshold never drops any. */
  lemma {:induction false} FilterOnServerRoles(roles: seq<RoleResult>, f: Filters)
    ensures f.industry == "" && !f.remote ==> FilterRoles(FromServer(roles), f) == FromServer(roles)
    ensures f.industry != "" || f.remote ==> FilterRoles(FromServer(roles), f) == []
    decreases |roles|
  {
    if |roles| > 0 {
      FilterOnServerRoles(roles[1..], f);
      assert FromServer(roles)[1..] == FromServer(roles[1..]);
      assert FromServer(roles) == [FromServer(roles)[0]] + FromServer(roles)[1..];
    }
  }

  /** At most this many role cards are shown. */
  const ShownRoles: nat := 5
  /** At most this many matching and missing skills are listed per card. */
  const ShownSkills: nat := 3

  datatype Card = Card(title: string, fitPercentage: real, reason: string, matching: seq<SkillFit>, missing: seq<Gap>)

  function CardOf(role: RoleView): (c: Card)
    ensures c.title == role.result.title && c.fitPercentage == role.result.fitPercentage && c.reason == role.result.reason
    ensures IsPrefix(c.matching, role.result.matching) && |c.matching| == Min(ShownSkills, |role.result.matching|)
    ensures IsPrefix(c.missing, role.result.missing) && |c.missing| == Min(ShownSkills, |role.result.missing|)
  {
    var r := role.result;
    Card(r.title, r.fitPercentage, r.reason, Take(r.matching, ShownSkills), Take(r.missing, ShownSkills))
  }

  function Min(a: nat, b: nat): nat {
    if a < b then a else b
  }

  /** The role cards: the first five roles that pass the filter. */
  function Cards(roles: seq<RoleView>, f: Filters): (r: seq<Card>)
    ensures var kept := FilterRoles(roles, f);
      |r| == Min(ShownRoles, |kept|) && forall i :: 0 <= i < |r| ==> r[i] == CardOf(kept[i])
  {
    var shown := Take(FilterRoles(roles, f), ShownRoles);
    seq(|shown|, i requires 0 <= i < |shown| => CardOf(shown[i]))
  }

  const Palette: seq<string> := ["#0088FE", "#00C49F", "#FFBB28", "#FF8042", "#8884D8", "#82CA9D"]

  /** The fill of donut cell `index`, cycling through the palette. */
  function CellColour(index: nat): (c: string)
    ensures c in Palette
  {
    Palette[index % |Palette|]
  }

  /** Two cells share a colour exactly when their positions are congruent
      modulo six: the palette's colours are all different. */
  lemma ColoursCycle(i: nat, j: nat)
    ensures CellColour(i) == CellColour(j) <==> i % 6 == j % 6
  {
    assert Distinct(Palette);
  }

  function DonutColours(donut: seq<DonutEntry>): (r: seq<string>)
    ensures |r| == |donut| && forall i :: 0 <= i < |r| ==> r[i] == CellColour(i)
  {
    seq(|donut|, i requires 0 <= i < |donut| => CellColour(i))
  }

  /** One point of the radar chart. */
  datatype RadarRow = RadarRow(skill: string, user: Option<int>, required: Option<int>)

  /** `a[i]` in JavaScript: `undefined` past the end. */
  function At(a: seq<int>, i: int): (r: Option<int>)
    ensures r.Some? <==> 0 <= i < |a|
    ensures r.Some? ==> r.value == a[i]
  {
    if 0 <= i < |a| then Some(a[i]) else None
  }

  /** `skills.map((skill, index) => ...)`: one row per skill name, whatever
      the lengths of the level arrays. */
  function RadarRows(d: RadarData): (r: seq<RadarRow>)
    ensures |r| == |d.skills|
    ensures forall i :: 0 <= i < |r| ==> r[i].skill == d.skills[i] && r[i].user == At(d.userLevels, i) && r[i].required == At(d.requiredLevels, i)
  {
    seq(|d.skills|, i requires 0 <= i < |d.skills| => RadarRow(d.skills[i], At(d.userLevels, i), At(d.requiredLevels, i)))
  }

  predicate Aligned(d: RadarData) {
    |d.userLevels| == |d.skills| && |d.requiredLevels| == |d.skills|
  }

  /** With equal-length arrays every row is a complete triple. */
  lemma AlignedRowsComplete(d: RadarData)
    requires Aligned(d)
    ensures forall i :: 0 <= i < |d.skills| ==>
      RadarRows(d)[i] == RadarRow(d.skills[i], Some(d.userLevels[i]), Some(d.requiredLevels[i]))
  {
  }

  /** The server's radar arrays are aligned, so each row carries the skill's
      user level (0 when unknown) and required level. */
  lemma ServerRadarRows(matching: seq<SkillFit>, missing: seq<Gap>, userSkills: map<string, Level>)
    ensures var picks := RadarPicks(matching, missing); var rows := RadarRows(BuildRadar(matching, missing, userSkills));
      |rows| == |picks| && forall i :: 0 <= i < |rows| ==>
        rows[i] == RadarRow(picks[i].skill, Some(LevelOf(userSkills, picks[i].skill) as int), Some(picks[i].requiredLevel as int))
  {
    AlignedRowsComplete(BuildRadar(matching, missing, userSkills));
  }

  /** What the page holds after a successful fetch. */
  datatype Page = Page(roles: seq<RoleView>, donut: seq<DonutEntry>, radar: RadarData, selected: Option<RoleView>, filters: Filters)

  /** The fetch handler: store the response and select its first role,
      taken from the unfiltered list. */
  function Load(resp: RoleFitResponse): (p: Page)
    ensures p.roles == FromServer(resp.roles) && p.donut == resp.donut && p.radar == resp.radar
    ensures p.filters == InitialFilters
    ensures |resp.roles| > 0 ==> p.selected == Some(RoleView(resp.roles[0], None, None, None))
    ensures |resp.roles| == 0 ==> p.selected.None?
  {
    var roles := FromServer(resp.roles);
    Page(roles, resp.donut, resp.radar, if |roles| > 0 then Some(roles[0]) else None, InitialFilters)
  }

  function WithFilters(p: Page, f: Filters): (q: Page)
    ensures q.filters == f && q.roles == p.roles && q.selected == p.selected
    ensures q.donut == p.donut && q.radar == p.radar
  {
    p.(filters := f)
  }

  /** The donut chart's heading; an absent or empty title reads "Top Role". */
  function DonutHeading(p: Page): (h: string)
    ensures p.selected.Some? && p.selected.value.result.title != "" ==> h == "Skill Importance for " + p.selected.value.result.title
    ensures p.selected.None? || p.selected.value.result.title == "" ==> h == "Skill Importance for Top Role"
  {
    var name := match p.selected
      case Some(r) => if r.result.title != "" then r.result.title else "Top Role"
      case None => "Top Role";
    "Skill Importance for " + name
  }

  /** The heading names the best role of the response, whatever the filters
      later hide. */
  lemma HeadingIgnoresFilters(resp: RoleFitResponse, f: Filters)
    requires |resp.roles| > 0 && resp.roles[0].title != ""
    ensures DonutHeading(WithFilters(Load(resp), f)) == "Skill Importance for " + resp.roles[0].title
  {
  }

  /** On the page as loaded, the cards are the response's roles in server
      order (at most five). */
  lemma LoadedCards(resp: RoleFitResponse)
    ensures var p := Load(resp); var cards := Cards(p.roles, p.filters);
      |cards| == Min(ShownRoles, |resp.roles|)
      && forall i :: 0 <= i < |cards| ==> cards[i].title == resp.roles[i].title && cards[i].fitPercentage == resp.roles[i].fitPercentage
  {
    FilterOnServerRoles(resp.roles, InitialFilters);
  }
}
